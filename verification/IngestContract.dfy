/**
  The consumer's side of the exchange (monitor-v2/journal_reader/ingest_contract.py).
  One pass sees a snapshot of the directory; what reading and applying each file
  comes to is given, since files may vanish or be damaged in between.
  */
module IngestContract {
  import opened Prelude

  type Code = nat

  /** The files scanned, the refusal code of each file that does not validate, and the files whose apply raises. */
  datatype Pass = Pass(files: set<nat>, codes: map<nat, Code>, failing: set<nat>)

  datatype Fate = Gap | Rejected | Consumed

  function FateOf(p: Pass, s: nat): Fate {
    if s !in p.files then Gap else if s in p.codes then Rejected else Consumed
  }

  /** A readable file whose apply raises settles nothing and holds everything after it. */
  predicate Blocks(p: Pass, s: nat) {
    FateOf(p, s) == Consumed && s in p.failing
  }

  datatype Result = Result(
    terminal: nat, gaps: nat, rejected: nat, consumed: nat,
    lastConsumed: Option<nat>, blockedAt: Option<nat>, rejectedCodes: map<nat, Code>)

  /** How many numbers above `lo`, up to `hi`, meet a fate. */
  function Count(p: Pass, fate: Fate, lo: nat, hi: nat): nat {
    if hi <= lo then 0 else Count(p, fate, lo, hi - 1) + if FateOf(p, hi) == fate then 1 else 0
  }

  /** The numbers above `lo`, up to `hi`, whose files are applied, in the order of application. */
  function Applied(p: Pass, lo: nat, hi: nat): seq<nat> {
    if hi <= lo then []
    else Applied(p, lo, hi - 1) + if FateOf(p, hi) == Consumed then [hi] else []
  }

  /** Where a pass must stop: just before the first file that blocks, or at the newest file there is. */
  ghost predicate StopsAt(p: Pass, lo: nat, hi: nat, blockedAt: Option<nat>) {
    && lo <= hi
    && (forall s :: lo < s <= hi ==> !Blocks(p, s))
    && match blockedAt
       case Some(b) => b == hi + 1 && Blocks(p, b)
       case None => (forall s :: s in p.files ==> s <= hi) && (hi == lo || hi in p.files)
  }

  /**
    Where a pass that dies has got to: an apply settles its number, and all before it,
    durably and at once, so the last file applied. One that dies before it has applied any
    has settled nothing.
    */
  ghost predicate DiesAt(p: Pass, lo: nat, hi: nat) {
    lo < hi && FateOf(p, hi) == Consumed && forall s :: lo < s <= hi ==> !Blocks(p, s)
  }

  /** Where a pass may leave the stored terminal number, if it leaves it anywhere else than it was. */
  ghost predicate Reaches(p: Pass, lo: nat, hi: nat, blockedAt: Option<nat>) {
    StopsAt(p, lo, hi, blockedAt) || (blockedAt.None? && DiesAt(p, lo, hi))
  }

  lemma {:induction false} GapsCount(p: Pass, lo: nat, mid: nat, hi: nat)
    requires lo <= mid <= hi && forall s :: mid < s <= hi ==> s !in p.files
    ensures Count(p, Gap, lo, hi) == Count(p, Gap, lo, mid) + hi - mid
    ensures Count(p, Rejected, lo, hi) == Count(p, Rejected, lo, mid)
    ensures Count(p, Consumed, lo, hi) == Count(p, Consumed, lo, mid)
    ensures Applied(p, lo, hi) == Applied(p, lo, mid)
  {
    if mid < hi { GapsCount(p, lo, mid, hi - 1); }
  }

  lemma {:induction false} Bounded(files: set<nat>) returns (top: nat)
    ensures forall s :: s in files ==> s <= top
  {
    if files == {} {
      top := 0;
    } else {
      var s :| s in files;
      var rest := Bounded(files - {s});
      top := if s < rest then rest else s;
      assert forall t :: t in files ==> t == s || t in files - {s};
    }
  }

  /** The smallest file number at or above `from`. */
  method NextPresent(files: set<nat>, from: nat) returns (next: nat)
    requires exists s :: s in files && s >= from
    ensures next in files && from <= next && forall s :: from <= s < next ==> s !in files
  {
    ghost var found :| found in files && found >= from;
    next := from;
    while next !in files
      invariant from <= next <= found
      invariant forall s :: from <= s < next ==> s !in files
      decreases found - next
    {
      next := next + 1;
    }
  }

  /** The result's books over the numbers above `lo` settled so far. */
  ghost predicate Accounts(p: Pass, lo: nat, r: Result, applied: seq<nat>) {
    && lo <= r.terminal
    && r.gaps == Count(p, Gap, lo, r.terminal)
    && r.rejected == Count(p, Rejected, lo, r.terminal)
    && r.consumed == Count(p, Consumed, lo, r.terminal)
    && applied == Applied(p, lo, r.terminal)
    && r.lastConsumed == (if applied == [] then None else Some(applied[|applied| - 1]))
    && (forall s :: s in r.rejectedCodes <==> lo < s <= r.terminal && FateOf(p, s) == Rejected)
    && (forall s :: s in r.rejectedCodes ==> s in p.codes && r.rejectedCodes[s] == p.codes[s])
  }

  ghost function Missing(p: Pass, lo: nat, hi: nat): set<nat> {
    set s: nat | lo < s <= hi && s !in p.files
  }

  ghost function Invalid(p: Pass, lo: nat, hi: nat): set<nat> {
    set s: nat | lo < s <= hi && s in p.files && s in p.codes
  }

  ghost function Readable(p: Pass, lo: nat, hi: nat): set<nat> {
    set s: nat | lo < s <= hi && s in p.files && s !in p.codes
  }

  /** The books in terms of the directory: what was missing, what did not validate, what could be applied. */
  ghost predicate Tallies(p: Pass, lo: nat, r: Result) {
    && r.gaps == |Missing(p, lo, r.terminal)|
    && r.rejected == |Invalid(p, lo, r.terminal)|
    && r.consumed == |Readable(p, lo, r.terminal)|
  }

  ghost function WithFate(p: Pass, fate: Fate, lo: nat, hi: nat): set<nat> {
    set s: nat | lo < s <= hi && FateOf(p, s) == fate
  }

  lemma {:induction false} CountIsCardinality(p: Pass, fate: Fate, lo: nat, hi: nat)
    ensures Count(p, fate, lo, hi) == |WithFate(p, fate, lo, hi)|
  {
    hide FateOf, WithFate;
    if lo < hi {
      CountIsCardinality(p, fate, lo, hi - 1);
      OneMoreFate(p, fate, lo, hi);
    } else {
      NoFates(p, fate, lo, hi);
    }
  }

  lemma NoFates(p: Pass, fate: Fate, lo: nat, hi: nat)
    requires hi <= lo
    ensures WithFate(p, fate, lo, hi) == {}
  {
  }

  lemma OneMoreFate(p: Pass, fate: Fate, lo: nat, hi: nat)
    requires lo < hi
    ensures |WithFate(p, fate, lo, hi)| == |WithFate(p, fate, lo, hi - 1)| + if FateOf(p, hi) == fate then 1 else 0
  {
    hide FateOf;
    var before, after := WithFate(p, fate, lo, hi - 1), WithFate(p, fate, lo, hi);
    if FateOf(p, hi) == fate {
      assert after == before + {hi} && hi !in before;
    } else {
      assert after == before;
    }
  }

  lemma AccountsTally(p: Pass, lo: nat, r: Result, applied: seq<nat>)
    requires Accounts(p, lo, r, applied)
    ensures Tallies(p, lo, r)
  {
    var hi := r.terminal;
    CountIsCardinality(p, Gap, lo, hi);
    CountIsCardinality(p, Rejected, lo, hi);
    CountIsCardinality(p, Consumed, lo, hi);
    assert WithFate(p, Gap, lo, hi) == Missing(p, lo, hi);
    assert WithFate(p, Rejected, lo, hi) == Invalid(p, lo, hi);
    assert WithFate(p, Consumed, lo, hi) == Readable(p, lo, hi);
  }

  /** What has been applied so far was readable, valid, and did not raise. */
  lemma AppliedDidNotBlock(p: Pass, lo: nat, hi: nat)
    requires forall s :: lo < s <= hi ==> !Blocks(p, s)
    ensures forall i :: 0 <= i < |Applied(p, lo, hi)| ==>
      var s := Applied(p, lo, hi)[i]; s in p.files && s !in p.codes && s !in p.failing
  {
    AppliedAscends(p, lo, hi);
    forall i | 0 <= i < |Applied(p, lo, hi)| ensures !Blocks(p, Applied(p, lo, hi)[i]) {
      var s := Applied(p, lo, hi)[i];
      assert lo < s <= hi;
    }
  }

  function Skipped(r: Result, next: nat): Result
    requires r.terminal < next
  {
    r.(gaps := r.gaps + next - (r.terminal + 1), terminal := next - 1)
  }

  function Refused(r: Result, s: nat, code: Code): Result {
    r.(terminal := s, rejected := r.rejected + 1, rejectedCodes := r.rejectedCodes[s := code])
  }

  function Took(r: Result, s: nat): Result {
    r.(terminal := s, lastConsumed := Some(s), consumed := r.consumed + 1)
  }

  lemma NothingSettled(p: Pass, terminal: nat)
    ensures Accounts(p, terminal, Result(terminal, 0, 0, 0, None, None, map[]), [])
  {
  }

  lemma BlockedAccounts(p: Pass, lo: nat, r: Result, applied: seq<nat>, s: nat)
    requires Accounts(p, lo, r, applied)
    ensures Accounts(p, lo, r.(blockedAt := Some(s)), applied)
  {
  }

  lemma SkippedAccounts(p: Pass, lo: nat, r: Result, applied: seq<nat>, next: nat)
    requires Accounts(p, lo, r, applied) && r.terminal < next
    requires forall s :: r.terminal < s < next ==> s !in p.files
    ensures Accounts(p, lo, Skipped(r, next), applied)
  {
    GapsCount(p, lo, r.terminal, next - 1);
  }

  lemma RefusedAccounts(p: Pass, lo: nat, r: Result, applied: seq<nat>, s: nat)
    requires Accounts(p, lo, r, applied) && s == r.terminal + 1 && s in p.files && s in p.codes
    ensures Accounts(p, lo, Refused(r, s, p.codes[s]), applied)
  {
  }

  lemma TookAccounts(p: Pass, lo: nat, r: Result, applied: seq<nat>, s: nat)
    requires Accounts(p, lo, r, applied) && s == r.terminal + 1 && FateOf(p, s) == Consumed
    ensures Accounts(p, lo, Took(r, s), applied + [s])
  {
  }

  /** What has been applied when one more file has been, and what that has settled durably. */
  lemma TookSettles(p: Pass, lo: nat, r: Result, applied: seq<nat>)
    requires Accounts(p, lo, r, applied)
    ensures applied == Applied(p, lo, r.terminal)
  {
  }

  /**
    `settle`: one ingest pass from the stored terminal number. Each apply stores its number
    with what it applies; the caller stores the rest of the advance when the pass is over.
    `power` is the number of applies after which the consumer dies, if the pass needs more.
    */
  method Settle(p: Pass, terminal: nat, power: nat) returns (r: Result, applied: seq<nat>, stored: nat, alive: bool)
    ensures alive ==> StopsAt(p, terminal, r.terminal, r.blockedAt) && stored == r.terminal
    ensures alive ==> Accounts(p, terminal, r, applied) && Tallies(p, terminal, r)
    ensures applied == Applied(p, terminal, stored)
    ensures forall i :: 0 <= i < |applied| ==>
      applied[i] in p.files && applied[i] !in p.codes && applied[i] !in p.failing
    ensures alive && r.blockedAt.Some? ==>
      var b := r.blockedAt.value; b in p.files && b !in p.codes && b in p.failing && b == r.terminal + 1
    ensures alive && r.blockedAt.None? ==> forall s :: s in p.files ==> s <= r.terminal
    ensures !alive ==> |applied| == power && (if power == 0 then stored == terminal else DiesAt(p, terminal, stored))
  {
    hide Accounts, Applied;
    ghost var top := Bounded(p.files);
    NothingSettled(p, terminal);
    r := Result(terminal, 0, 0, 0, None, None, map[]);
    TookSettles(p, terminal, r, []);
    applied, stored := [], terminal;
    var s := terminal + 1;
    while s in p.files || exists t :: t in p.files && t > s
      invariant s == r.terminal + 1
      invariant r.blockedAt.None?
      invariant r.terminal == terminal || r.terminal in p.files
      invariant forall t :: terminal < t <= r.terminal ==> !Blocks(p, t)
      invariant Accounts(p, terminal, r, applied) && |applied| <= power
      invariant applied == Applied(p, terminal, stored)
      invariant if applied == [] then stored == terminal else DiesAt(p, terminal, stored)
      decreases top + 1 - s
    {
      if s !in p.files {
        var next := NextPresent(p.files, s);
        SkippedAccounts(p, terminal, r, applied, next);
        r := Skipped(r, next);
        s := next;
      }
      if s in p.codes {
        RefusedAccounts(p, terminal, r, applied, s);
        r := Refused(r, s, p.codes[s]);
        s := s + 1;
        continue;
      }
      if s in p.failing {
        BlockedAccounts(p, terminal, r, applied, s);
        r := r.(blockedAt := Some(s));
        break;
      }
      if |applied| == power {
        AppliedDidNotBlock(p, terminal, stored);
        return r, applied, stored, false;
      }
      TookAccounts(p, terminal, r, applied, s);
      r := Took(r, s);
      applied, stored := applied + [s], s;
      TookSettles(p, terminal, r, applied);
      s := s + 1;
    }
    TookSettles(p, terminal, r, applied);
    AccountsTally(p, terminal, r, applied);
    AppliedDidNotBlock(p, terminal, r.terminal);
    return r, applied, r.terminal, true;
  }

  // ---------------------------------------------------------------- any number of passes

  /** A pass settles each number it crosses under exactly one of the three fates. */
  lemma {:induction false} PassIsAPartition(p: Pass, lo: nat, hi: nat)
    requires lo <= hi
    ensures Count(p, Gap, lo, hi) + Count(p, Rejected, lo, hi) + Count(p, Consumed, lo, hi) == hi - lo
    ensures |Applied(p, lo, hi)| == Count(p, Consumed, lo, hi)
  {
    if lo < hi { PassIsAPartition(p, lo, hi - 1); }
  }

  predicate Ascending(s: seq<nat>) {
    forall i, j :: 0 <= i < j < |s| ==> s[i] < s[j]
  }

  lemma {:induction false} AppliedAscends(p: Pass, lo: nat, hi: nat)
    ensures Ascending(Applied(p, lo, hi))
    ensures forall s :: s in Applied(p, lo, hi) <==> lo < s <= hi && FateOf(p, s) == Consumed
    ensures forall i :: 0 <= i < |Applied(p, lo, hi)| ==>
      var s := Applied(p, lo, hi)[i]; lo < s <= hi && FateOf(p, s) == Consumed
  {
    hide FateOf;
    if lo < hi {
      AppliedAscends(p, lo, hi - 1);
      AscendingConcat(Applied(p, lo, hi - 1), if FateOf(p, hi) == Consumed then [hi] else []);
    }
  }

  lemma AscendingConcat(a: seq<nat>, b: seq<nat>)
    requires Ascending(a) && Ascending(b)
    requires forall x, y :: x in a && y in b ==> x < y
    ensures Ascending(a + b)
  {
    forall i, j | 0 <= i < |a| <= j < |a + b| ensures (a + b)[i] < (a + b)[j] {
      assert a[i] in a && b[j - |a|] in b;
    }
  }

  /** One pass of a run: what it saw, and where it stopped. */
  datatype Stage = Stage(pass: Pass, stop: nat, blockedAt: Option<nat>)

  /** A run of passes over a changing directory, each starting from the terminal the last one left. */
  ghost predicate Passes(from: nat, stages: seq<Stage>)
    decreases |stages|
  {
    stages == [] ||
    (Reaches(stages[0].pass, from, stages[0].stop, stages[0].blockedAt) && Passes(stages[0].stop, stages[1..]))
  }

  function Final(from: nat, stages: seq<Stage>): nat
    decreases |stages|
  {
    if stages == [] then from else Final(stages[0].stop, stages[1..])
  }

  function Total(from: nat, stages: seq<Stage>, fate: Fate): nat
    decreases |stages|
  {
    if stages == [] then 0
    else Count(stages[0].pass, fate, from, stages[0].stop) + Total(stages[0].stop, stages[1..], fate)
  }

  function AllApplied(from: nat, stages: seq<Stage>): seq<nat>
    decreases |stages|
  {
    if stages == [] then []
    else Applied(stages[0].pass, from, stages[0].stop) + AllApplied(stages[0].stop, stages[1..])
  }

  /**
    Settlement is a partition. Over any number of passes, with files appearing
    and vanishing between them and the consumer dying within them, the terminal advances by exactly the numbers
    counted as gaps, rejections and consumptions, and applies strictly ascend,
    so no number is ever applied twice.
    */
  lemma {:induction false} SettlementIsAPartition(from: nat, stages: seq<Stage>)
    requires Passes(from, stages)
    ensures from <= Final(from, stages)
    ensures Total(from, stages, Gap) + Total(from, stages, Rejected) + Total(from, stages, Consumed)
      == Final(from, stages) - from
    ensures Ascending(AllApplied(from, stages))
    ensures forall s :: s in AllApplied(from, stages) ==> from < s <= Final(from, stages)
    decreases |stages|
  {
    if stages != [] {
      var p, stop := stages[0].pass, stages[0].stop;
      SettlementIsAPartition(stop, stages[1..]);
      PassIsAPartition(p, from, stop);
      AppliedAscends(p, from, stop);
      AscendingConcat(Applied(p, from, stop), AllApplied(stop, stages[1..]));
    }
  }
}
