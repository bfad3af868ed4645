/**
  Producer and consumer together: the reader's durable machine and the ingest
  passes over the directory it fills, in any interleaving. What makes the
  consumer safe is that the producer, whatever crashes it suffers, never writes
  a number twice.
  */
module Pipeline {
  import opened Prelude
  import opened ExchangeSchema
  import opened JournalBatch
  import opened JournalState
  import Reader = JournalReader
  import Ingest = IngestContract

  /** A file the consumer applied. */
  datatype Receipt = Receipt(seqNo: nat, file: File)

  /** The machine, the terminal number, what was applied, and how every number so far was settled. */
  datatype State = State(machine: Reader.Machine, terminal: nat, receipts: seq<Receipt>, fates: map<nat, Ingest.Fate>)

  /**
    `codes` holds the files this pass fails to read or validate, `failing` those whose apply
    raises. A pass may also die after any of its applies, and is then followed by another.
    */
  datatype Op =
    | Produce(op: Reader.Op)
    | Consume(codes: map<nat, Ingest.Code>, failing: set<nat>, stop: nat, blockedAt: Option<nat>)

  function Receipts(files: map<nat, File>, numbers: seq<nat>): (r: seq<Receipt>)
    requires forall i :: 0 <= i < |numbers| ==> numbers[i] in files
    ensures |r| == |numbers|
    ensures forall i :: 0 <= i < |r| ==> r[i] == Receipt(numbers[i], files[numbers[i]])
  {
    seq(|numbers|, i requires 0 <= i < |numbers| => Receipt(numbers[i], files[numbers[i]]))
  }

  function FatesOf(pass: Ingest.Pass, lo: nat, hi: nat): map<nat, Ingest.Fate> {
    map n: nat | lo < n <= hi :: Ingest.FateOf(pass, n)
  }

  ghost function Step(s: State, op: Op): State {
    match op
    case Produce(o) => s.(machine := Reader.Step(s.machine, o))
    case Consume(codes, failing, stop, blockedAt) =>
      var files := s.machine.world.disk.files;
      var pass := Ingest.Pass(files.Keys, codes, failing);
      if !Ingest.Reaches(pass, s.terminal, stop, blockedAt) then s
      else
        var numbers := Ingest.Applied(pass, s.terminal, stop);
        Ingest.AppliedAscends(pass, s.terminal, stop);
        State(s.machine, stop, s.receipts + Receipts(files, numbers), s.fates + FatesOf(pass, s.terminal, stop))
  }

  ghost function Run(ops: seq<Op>): State {
    if ops == [] then State(Reader.Machine(Reader.BLANK, None), 0, [], map[])
    else Step(Run(ops[..|ops| - 1]), ops[|ops| - 1])
  }

  predicate Numbered(receipts: seq<Receipt>, terminal: nat) {
    && (forall i :: 0 <= i < |receipts| ==> 1 <= receipts[i].seqNo <= terminal)
    && (forall i, j :: 0 <= i < j < |receipts| ==> receipts[i].seqNo < receipts[j].seqNo)
  }

  predicate FromLog(receipts: seq<Receipt>, log: seq<Reader.Written>) {
    forall i :: 0 <= i < |receipts| ==>
      1 <= receipts[i].seqNo <= |log| && receipts[i].file == log[receipts[i].seqNo - 1].file
  }

  predicate HasReceipt(receipts: seq<Receipt>, n: nat) {
    exists i :: 0 <= i < |receipts| && receipts[i].seqNo == n
  }

  /** Every number up to the terminal has met one fate: it was applied, it was refused, or it is gone for good. */
  ghost predicate Settled(s: State) {
    && (forall n: nat :: n in s.fates <==> 1 <= n <= s.terminal)
    && (forall n :: n in s.fates ==> (s.fates[n] == Ingest.Consumed <==> HasReceipt(s.receipts, n)))
    && (forall n :: n in s.fates && s.fates[n] == Ingest.Gap ==> n !in s.machine.world.disk.files)
  }

  ghost predicate Inv(s: State) {
    && Reader.RunningInv(s.machine)
    && s.terminal <= |s.machine.world.log|
    && Numbered(s.receipts, s.terminal)
    && FromLog(s.receipts, s.machine.world.log)
    && Settled(s)
  }

  // ---------------------------------------------------------------- the log only grows

  ghost predicate Extends(log: seq<Reader.Written>, trace: seq<Reader.World>) {
    forall i :: 0 <= i < |trace| ==> log <= trace[i].log
  }

  /** What is not in the directory of `w`, though it was written, is not in that of `w'` either. */
  ghost predicate NothingReturns(w: Reader.World, w': Reader.World) {
    forall n :: 1 <= n <= |w.log| && n !in w.disk.files ==> n !in w'.disk.files
  }

  ghost predicate NothingReturnsIn(w: Reader.World, trace: seq<Reader.World>) {
    forall i :: 0 <= i < |trace| ==> NothingReturns(w, trace[i])
  }

  lemma {:induction false} EvictionsReturnNothing(w: Reader.World, v: Reader.World)
    requires NothingReturns(w, v)
    ensures NothingReturnsIn(w, Reader.Evictions(v))
    decreases |v.disk.files|
  {
    if Reader.OverBound(v.disk.files) {
      EvictionsReturnNothing(w, Reader.Unlink(v, Reader.Oldest(v.disk.files)));
    }
  }

  lemma SweptReturnsNothing(w: Reader.World, head: seq<Reader.World>)
    requires NothingReturnsIn(w, head)
    ensures NothingReturnsIn(w, Reader.Swept(w, head))
  {
    EvictionsReturnNothing(w, Reader.PowerLoss.Surviving(w, head, |head|));
  }

  lemma CommitReturnsNothing(w: Reader.World, c: Committed, run: nat, n: nat, size: nat)
    requires c.source.pos + n <= |w.journal| && c.seqNo == |w.log|
    ensures NothingReturnsIn(w, Reader.CommitTrace(w, c, run, n, size))
  {
    var p := Reader.NextPending(c, run, n);
    var body := Reader.Export(w.journal, c.source.pos, p);
    if body.Some? {
      SweptReturnsNothing(w, Reader.CommitHead(w, p, Reader.Rendered(c.source.pos, p, body.value, size)));
    }
  }

  lemma SurvivingReturnsNothing(w: Reader.World, trace: seq<Reader.World>, power: nat)
    requires NothingReturnsIn(w, trace)
    ensures NothingReturns(w, Reader.PowerLoss.Surviving(w, trace, power))
  {
  }

  /** An evicted file never comes back, whatever is recovered, reset or retried. */
  lemma EvictedStaysGone(m: Reader.Machine, op: Reader.Op)
    requires Reader.RunningInv(m)
    ensures NothingReturns(m.world, Reader.Step(m, op).world)
  {
    var w := m.world;
    match op {
      case Boot(_, anchor, power) =>
        SweptReturnsNothing(w, Reader.RecoverHead(w, anchor));
        SurvivingReturnsNothing(w, Reader.StartTrace(w, anchor), power);
      case Reset(anchor, power) => SurvivingReturnsNothing(w, Reader.ResetTrace(w, anchor), power);
      case Cycle(processed, _, _, _, size, power) =>
        if m.up.Some? && w.disk.committed.value.source.pos + processed <= |w.journal| {
          CommitReturnsNothing(w, w.disk.committed.value, m.up.value, processed, size);
          SurvivingReturnsNothing(w, Reader.CommitTrace(w, w.disk.committed.value, m.up.value, processed, size), power);
        }
      case _ =>
    }
  }

  lemma {:induction false} EvictionsExtend(w: Reader.World, log: seq<Reader.Written>)
    requires log <= w.log
    ensures Extends(log, Reader.Evictions(w))
    decreases |w.disk.files|
  {
    if Reader.OverBound(w.disk.files) {
      EvictionsExtend(Reader.Unlink(w, Reader.Oldest(w.disk.files)), log);
    }
  }

  lemma SweptExtends(w: Reader.World, head: seq<Reader.World>)
    requires Extends(w.log, head)
    ensures Extends(w.log, Reader.Swept(w, head))
  {
    EvictionsExtend(Reader.PowerLoss.Surviving(w, head, |head|), w.log);
  }

  lemma CommitExtends(w: Reader.World, c: Committed, run: nat, n: nat, size: nat)
    requires c.source.pos + n <= |w.journal|
    ensures Extends(w.log, Reader.CommitTrace(w, c, run, n, size))
  {
    var p := Reader.NextPending(c, run, n);
    var body := Reader.Export(w.journal, c.source.pos, p);
    if body.Some? {
      SweptExtends(w, Reader.CommitHead(w, p, Reader.Rendered(c.source.pos, p, body.value, size)));
    }
  }

  lemma StartExtends(w: Reader.World, anchor: Source)
    ensures Extends(w.log, Reader.StartTrace(w, anchor))
  {
    SweptExtends(w, Reader.RecoverHead(w, anchor));
  }

  lemma SurvivingExtends(w: Reader.World, trace: seq<Reader.World>, power: nat)
    requires Extends(w.log, trace)
    ensures w.log <= Reader.PowerLoss.Surviving(w, trace, power).log
  {
  }

  lemma LogOnlyGrows(m: Reader.Machine, op: Reader.Op)
    ensures m.world.log <= Reader.Step(m, op).world.log
  {
    var w := m.world;
    match op {
      case Boot(_, anchor, power) =>
        StartExtends(w, anchor);
        SurvivingExtends(w, Reader.StartTrace(w, anchor), power);
      case Reset(anchor, power) => SurvivingExtends(w, Reader.ResetTrace(w, anchor), power);
      case Cycle(processed, _, _, _, size, power) =>
        if m.up.Some? && w.disk.committed.Some? && w.disk.committed.value.source.pos + processed <= |w.journal| {
          CommitExtends(w, w.disk.committed.value, m.up.value, processed, size);
          SurvivingExtends(w, Reader.CommitTrace(w, w.disk.committed.value, m.up.value, processed, size), power);
        }
      case _ =>
    }
  }

  lemma ConsumeKeeps(s: State, op: Op)
    requires Inv(s) && op.Consume?
    ensures Inv(Step(s, op))
  {
    var files, log := s.machine.world.disk.files, s.machine.world.log;
    var pass := Ingest.Pass(files.Keys, op.codes, op.failing);
    if Ingest.Reaches(pass, s.terminal, op.stop, op.blockedAt) {
      var numbers := Ingest.Applied(pass, s.terminal, op.stop);
      Ingest.AppliedAscends(pass, s.terminal, op.stop);
      AddsReceipts(s.receipts, s.terminal, files, numbers, op.stop, log);
      SettledByPass(s, pass, op.stop, numbers, Receipts(files, numbers));
    }
  }

  /** Receipts of files of the directory, for ascending numbers above the terminal. */
  lemma AddsReceipts(receipts: seq<Receipt>, terminal: nat, files: map<nat, File>, numbers: seq<nat>, stop: nat,
                     log: seq<Reader.Written>)
    requires Numbered(receipts, terminal) && FromLog(receipts, log) && Reader.Kept(files, log)
    requires Ingest.Ascending(numbers) && terminal <= stop
    requires forall i :: 0 <= i < |numbers| ==> terminal < numbers[i] <= stop && numbers[i] in files
    ensures Numbered(receipts + Receipts(files, numbers), stop) && FromLog(receipts + Receipts(files, numbers), log)
  {
  }

  /** What a pass does to the fates, and to the receipts of the numbers it applied. */
  lemma SettledByPass(s: State, pass: Ingest.Pass, stop: nat, numbers: seq<nat>, more: seq<Receipt>)
    requires Settled(s) && s.terminal <= stop && pass.files == s.machine.world.disk.files.Keys
    requires forall i :: 0 <= i < |s.receipts| ==> s.receipts[i].seqNo <= s.terminal
    requires forall n :: n in numbers <==> s.terminal < n <= stop && Ingest.FateOf(pass, n) == Ingest.Consumed
    requires |more| == |numbers| && forall i :: 0 <= i < |more| ==> more[i].seqNo == numbers[i]
    ensures Settled(State(s.machine, stop, s.receipts + more, s.fates + FatesOf(pass, s.terminal, stop)))
  {
    var all, fates := s.receipts + more, s.fates + FatesOf(pass, s.terminal, stop);
    forall i | 0 <= i < |more| ensures s.terminal < more[i].seqNo <= stop { assert numbers[i] in numbers; }
    forall n | n in fates ensures fates[n] == Ingest.Consumed <==> HasReceipt(all, n) {
      if n <= s.terminal {
        assert n in s.fates && fates[n] == s.fates[n];
        ReceiptsBelow(s.receipts, more, n);
      } else {
        ReceiptsAbove(s.receipts, more, n);
        assert n in numbers <==> HasReceipt(more, n);
      }
    }
  }

  lemma ReceiptsBelow(earlier: seq<Receipt>, more: seq<Receipt>, n: nat)
    requires forall i :: 0 <= i < |more| ==> n < more[i].seqNo
    ensures HasReceipt(earlier + more, n) <==> HasReceipt(earlier, n)
  {
    if i :| 0 <= i < |earlier| && earlier[i].seqNo == n { assert (earlier + more)[i].seqNo == n; }
  }

  lemma ReceiptsAbove(earlier: seq<Receipt>, more: seq<Receipt>, n: nat)
    requires forall i :: 0 <= i < |earlier| ==> earlier[i].seqNo < n
    ensures HasReceipt(earlier + more, n) <==> HasReceipt(more, n)
  {
    if i :| 0 <= i < |more| && more[i].seqNo == n { assert (earlier + more)[|earlier| + i].seqNo == n; }
  }

  lemma {:induction false} RunKeeps(ops: seq<Op>)
    ensures Inv(Run(ops))
  {
    if ops != [] {
      var before, op := Run(ops[..|ops| - 1]), ops[|ops| - 1];
      RunKeeps(ops[..|ops| - 1]);
      match op {
        case Produce(o) =>
          Reader.StepKeeps(before.machine, o);
          LogOnlyGrows(before.machine, o);
          EvictedStaysGone(before.machine, o);
        case Consume(_, _, _, _) => ConsumeKeeps(before, op);
      }
    }
  }

  lemma WrittenFilesAreWellFormed(w: Reader.World, k: nat)
    requires Reader.Inv(w) && k < |w.log|
    ensures WellFormedFile(w.log[k].file.lines, k + 1)
  {
    assert Reader.Linked(w.journal, w.anchors, w.log, k);
  }

  /** Two receipts are of two files of the log, in order, each well formed and, in one epoch, of disjoint segments. */
  predicate Separate(a: Receipt, b: Receipt, terminal: nat, log: seq<Reader.Written>) {
    && 1 <= a.seqNo < b.seqNo <= terminal <= |log|
    && a.file == log[a.seqNo - 1].file && b.file == log[b.seqNo - 1].file
    && WellFormedFile(a.file.lines, a.seqNo) && WellFormedFile(b.file.lines, b.seqNo)
    && (log[a.seqNo - 1].epoch == log[b.seqNo - 1].epoch ==> log[a.seqNo - 1].to <= log[b.seqNo - 1].from)
  }

  lemma ReceiptsAreSeparate(s: State, i: nat, j: nat)
    requires Inv(s) && i < j < |s.receipts|
    ensures Separate(s.receipts[i], s.receipts[j], s.terminal, s.machine.world.log)
  {
    ReceiptsAreLogged(s, i, j);
    WrittenFilesAreWellFormed(s.machine.world, s.receipts[i].seqNo - 1);
    WrittenFilesAreWellFormed(s.machine.world, s.receipts[j].seqNo - 1);
    FilesApart(s.machine.world, s.receipts[i].seqNo, s.receipts[j].seqNo);
  }

  /** The receipt is of a file of the log that the consumer's validator accepts. */
  predicate Genuine(r: Receipt, terminal: nat, log: seq<Reader.Written>) {
    1 <= r.seqNo <= terminal <= |log| && r.file == log[r.seqNo - 1].file && WellFormedFile(r.file.lines, r.seqNo)
  }

  /**
    End to end, through every crash, recovery, reset, eviction, failed read and
    failed apply: what the consumer has applied are files the producer wrote,
    each at most once, in ascending order; each passes the consumer's validator;
    and no two of one epoch report a journal entry in common.
    */
  lemma AppliedExactlyOnce(ops: seq<Op>)
    ensures var s := Run(ops);
      && (forall i :: 0 <= i < |s.receipts| ==> Genuine(s.receipts[i], s.terminal, s.machine.world.log))
      && (forall i, j :: 0 <= i < j < |s.receipts| ==>
            Separate(s.receipts[i], s.receipts[j], s.terminal, s.machine.world.log))
  {
    var s := Run(ops);
    RunKeeps(ops);
    forall i | 0 <= i < |s.receipts| ensures Genuine(s.receipts[i], s.terminal, s.machine.world.log) {
      WrittenFilesAreWellFormed(s.machine.world, s.receipts[i].seqNo - 1);
    }
    forall i, j | 0 <= i < j < |s.receipts|
      ensures Separate(s.receipts[i], s.receipts[j], s.terminal, s.machine.world.log)
    {
      ReceiptsAreSeparate(s, i, j);
    }
  }

  /** No file is refused a read but one that is not well formed. */
  predicate ReadsBack(op: Op, files: map<nat, File>) {
    op.Consume? ==> forall n :: n in op.codes && n in files ==> !WellFormedFile(files[n].lines, n)
  }

  ghost predicate AllReadBack(ops: seq<Op>) {
    forall i :: 0 <= i < |ops| ==> ReadsBack(ops[i], Run(ops[..i]).machine.world.disk.files)
  }

  /**
    Nothing is skipped: every number up to the terminal was applied, refused in a pass
    that could not read its file, or evicted, and then it is gone for good. If files read
    back as they were written nothing is refused, so all that was not evicted is applied.
    */
  lemma EveryNumberIsSettled(ops: seq<Op>, n: nat)
    requires 1 <= n <= Run(ops).terminal
    ensures var s := Run(ops);
      && n <= |s.machine.world.log| && n in s.fates
      && (s.fates[n] == Ingest.Consumed <==> HasReceipt(s.receipts, n))
      && (s.fates[n] == Ingest.Gap ==> n !in s.machine.world.disk.files)
      && (AllReadBack(ops) ==> s.fates[n] != Ingest.Rejected)
  {
    RunKeeps(ops);
    if AllReadBack(ops) { NothingRefused(ops, n); }
  }

  lemma {:induction false} NothingRefused(ops: seq<Op>, n: nat)
    requires AllReadBack(ops) && n in Run(ops).fates
    ensures Run(ops).fates[n] != Ingest.Rejected
  {
    if ops != [] {
      var k := |ops| - 1;
      RunKeeps(ops[..k]);
      ReadBackPrefix(ops, k);
      if n in Run(ops[..k]).fates { NothingRefused(ops[..k], n); }
      FateIsOldOrAccepted(Run(ops[..k]), ops[k], n);
    }
  }

  lemma ReadBackPrefix(ops: seq<Op>, k: nat)
    requires AllReadBack(ops) && k < |ops|
    ensures AllReadBack(ops[..k]) && ReadsBack(ops[k], Run(ops[..k]).machine.world.disk.files)
  {
    forall i | 0 <= i < k ensures ReadsBack(ops[..k][i], Run(ops[..k][..i]).machine.world.disk.files) {
      assert ops[..k][..i] == ops[..i] && ReadsBack(ops[i], Run(ops[..i]).machine.world.disk.files);
    }
  }

  lemma FateIsOldOrAccepted(s: State, op: Op, n: nat)
    requires Inv(s) && ReadsBack(op, s.machine.world.disk.files) && n in Step(s, op).fates
    ensures (n in s.fates && Step(s, op).fates[n] == s.fates[n]) || Step(s, op).fates[n] != Ingest.Rejected
  {
    if op.Consume? && s.terminal < n { GoodFilesAreAccepted(s, op, n); }
  }

  lemma GoodFilesAreAccepted(s: State, op: Op, n: nat)
    requires Inv(s) && op.Consume? && ReadsBack(op, s.machine.world.disk.files) && s.terminal < n
    ensures Ingest.FateOf(Ingest.Pass(s.machine.world.disk.files.Keys, op.codes, op.failing), n) != Ingest.Rejected
  {
    var w := s.machine.world;
    if n in w.disk.files {
      assert Reader.Kept(w.disk.files, w.log);
      WrittenFilesAreWellFormed(w, n - 1);
    }
  }

  /** The last number a pass gets to that finds every file readable and applies it. */
  lemma {:induction false} QuietStop(files: set<nat>, terminal: nat, top: nat) returns (stop: nat)
    requires terminal <= top && forall n :: n in files ==> n <= top
    ensures Ingest.StopsAt(Ingest.Pass(files, map[], {}), terminal, stop, None)
    decreases top
  {
    if top == terminal || top in files { stop := top; } else { stop := QuietStop(files, terminal, top - 1); }
  }

  lemma RunOneMore(ops: seq<Op>, op: Op)
    ensures Run(ops + [op]) == Step(Run(ops), op)
    ensures AllReadBack(ops) && ReadsBack(op, Run(ops).machine.world.disk.files) ==> AllReadBack(ops + [op])
  {
    hide Step;
    assert (ops + [op])[..|ops|] == ops;
    if AllReadBack(ops) && ReadsBack(op, Run(ops).machine.world.disk.files) {
      var more := ops + [op];
      forall i | 0 <= i < |more| ensures ReadsBack(more[i], Run(more[..i]).machine.world.disk.files) {
        if i < |ops| { assert more[..i] == ops[..i] && ReadsBack(ops[i], Run(ops[..i]).machine.world.disk.files); }
      }
    }
  }

  /**
    The consumer catches up: whatever crashes, failures and evictions lie behind, if files read back as
    they were written then one pass in which no apply raises leaves every file of the directory applied.
    */
  lemma CatchesUp(ops: seq<Op>) returns (stop: nat)
    requires AllReadBack(ops)
    ensures var s, t := Run(ops), Run(ops + [Consume(map[], {}, stop, None)]);
      && t.machine == s.machine && t.terminal == stop && s.receipts <= t.receipts
      && forall n :: n in s.machine.world.disk.files ==> n <= stop && HasReceipt(t.receipts, n)
  {
    hide WellFormedFile, Run, AllReadBack;
    var s := Run(ops);
    RunKeeps(ops);
    var files := s.machine.world.disk.files;
    assert Reader.Kept(files, s.machine.world.log);
    stop := QuietStop(files.Keys, s.terminal, |s.machine.world.log|);
    var op := Consume(map[], {}, stop, None);
    RunOneMore(ops, op);
    var t := Step(s, op);
    RunKeeps(ops + [op]);
    forall n | n in files ensures n <= stop && HasReceipt(t.receipts, n) {
      assert n in t.fates;
      NothingRefused(ops + [op], n);
      assert t.fates[n] != Ingest.Gap;
    }
  }

  lemma ReceiptsAreLogged(s: State, i: nat, j: nat)
    requires Inv(s) && i < j < |s.receipts|
    ensures var log := s.machine.world.log;
      var a, b := s.receipts[i], s.receipts[j];
      && 1 <= a.seqNo < b.seqNo <= s.terminal <= |log|
      && a.file == log[a.seqNo - 1].file && b.file == log[b.seqNo - 1].file
  {
  }

  lemma FilesApart(w: Reader.World, a: nat, b: nat)
    requires Reader.Inv(w) && 1 <= a < b <= |w.log|
    ensures w.log[a - 1].epoch == w.log[b - 1].epoch ==> w.log[a - 1].to <= w.log[b - 1].from
  {
    if w.log[a - 1].epoch == w.log[b - 1].epoch { Reader.SegmentsAreDisjoint(w, a - 1, b - 1); }
  }

  /** The only numbers a pass can count as gaps are files retention evicted before the consumer came for them. */
  lemma GapsAreEvictions(ops: seq<Op>, s: State, codes: map<nat, Ingest.Code>, failing: set<nat>,
                         stop: nat, blockedAt: Option<nat>, n: nat)
    requires s == Run(ops)
    requires var pass := Ingest.Pass(s.machine.world.disk.files.Keys, codes, failing);
      && Ingest.Reaches(pass, s.terminal, stop, blockedAt)
      && s.terminal < n <= stop && Ingest.FateOf(pass, n) == Ingest.Gap
    ensures n <= |s.machine.world.log|
    ensures forall k :: 0 <= k <= n ==> k !in s.machine.world.disk.files
  {
    RunKeeps(ops);
    var w := s.machine.world;
    assert Reader.Kept(w.disk.files, w.log);
    NothingBelowAGap(w, n, n);
  }

  lemma {:induction false} NothingBelowAGap(w: Reader.World, n: nat, k: nat)
    requires Reader.Kept(w.disk.files, w.log) && k <= n <= |w.log| && n !in w.disk.files
    ensures forall i :: 0 <= i <= k ==> i !in w.disk.files
    decreases k
  {
    AbsentBelow(w, n, k);
    if k > 0 { NothingBelowAGap(w, n, k - 1); }
  }

  lemma {:induction false} AbsentBelow(w: Reader.World, n: nat, k: nat)
    requires Reader.Kept(w.disk.files, w.log) && k <= n <= |w.log| && n !in w.disk.files
    ensures k !in w.disk.files
    decreases n - k
  {
    if k < n { AbsentBelow(w, n, k + 1); }
  }
}
