/**
  One poll window's aggregation: `_Batch` and `Reader._consume` in
  monitor-v2/journal_reader/reader.py. The message classifier is opaque: an entry
  carries the decision `assess` reached and, for an unclassified message, the
  fingerprint of its template (absent when the template is unsafe to hash).
  */
module JournalBatch {
  import opened Prelude
  import opened ExchangeSchema

  const BACKLOG_CAP := 50_000
  const MAX_RECORDS := 200
  const MAX_FINGERPRINTS := 16
  /** Every class, in the order of its name. */
  const ALPHABETICAL: seq<Class> :=
    [DialTimeout, Dns, EofCancel, NetUnreachable, Other, QuicError, Reset, TlsHandshake]
  const KEPT := MAX_RECORDS - |ALPHABETICAL|

  datatype Decision =
    | DropInfo
    | DropNoMatch(priorityUnusable: bool)
    | Eligible(cls: Option<Class>, proto: Proto, port: Option<int>, dcls: Option<DestClass>,
               template: Option<Fingerprint>)

  /** An entry with a usable cursor; `Unparsable` has no usable message or timestamp. */
  datatype Entry = Unparsable | Parsed(ts: int, decision: Decision)

  /** A line of the poll child's output; `NoCursor` covers undecodable lines and invalid cursors. */
  datatype PollLine = Blank | NoCursor | Located(entry: Entry)

  datatype Key = Key(cls: Class, proto: Proto, port: Option<int>, dcls: Option<DestClass>, fp: Option<Fingerprint>)
  datatype Group = Group(key: Key, first: int, last: int, n: nat)

  datatype Summary = Summary(
    processed: nat, pfail: nat, eligible: nat, infoDropped: nat, nomatchDropped: nat,
    priorityUnusable: nat, limited: nat, groups: seq<Group>, fps: set<Fingerprint>)

  // ---------------------------------------------------------------- absorbing entries

  /** The key an eligible decision is counted under, and whether counting it limited the detail. */
  function Classify(d: Decision, fps: set<Fingerprint>): (r: (Key, bool))
    requires d.Eligible?
    ensures d.cls.Some? ==> r.0.cls == d.cls.value
    ensures d.cls.None? ==> r.0.cls == Other
  {
    match d.cls
    case Some(c) => (Key(c, d.proto, d.port, d.dcls, None), false)
    case None =>
      if d.template.None? then (Key(Other, d.proto, d.port, d.dcls, None), true)
      else if d.template.value in fps || |fps| < MAX_FINGERPRINTS then
        (Key(Other, d.proto, d.port, d.dcls, d.template), false)
      else (Key(Other, OtherProto, None, None, None), true)
  }

  /** Count one more entry under `key`, keeping the order in which keys first appeared. */
  function Tally(groups: seq<Group>, key: Key, ts: int): seq<Group> {
    if groups == [] then [Group(key, ts, ts, 1)]
    else if groups[0].key == key then
      [Group(key, Min(groups[0].first, ts), Max(groups[0].last, ts), groups[0].n + 1)] + groups[1..]
    else [groups[0]] + Tally(groups[1..], key, ts)
  }

  function Absorb(s: Summary, d: Decision, ts: int): Summary {
    match d
    case DropInfo => s.(infoDropped := s.infoDropped + 1)
    case DropNoMatch(unusable) =>
      s.(nomatchDropped := s.nomatchDropped + 1,
         priorityUnusable := s.priorityUnusable + if unusable then 1 else 0)
    case Eligible(_, _, _, _, _) =>
      var (key, limited) := Classify(d, s.fps);
      s.(eligible := s.eligible + 1,
         limited := s.limited + if limited then 1 else 0,
         fps := s.fps + if key.fp.Some? then {key.fp.value} else {},
         groups := Tally(s.groups, key, ts))
  }

  function Process(s: Summary, e: Entry): Summary {
    var t := s.(processed := s.processed + 1);
    match e
    case Unparsable => t.(pfail := t.pfail + 1)
    case Parsed(ts, d) => Absorb(t, d, ts)
  }

  const NOTHING := Summary(0, 0, 0, 0, 0, 0, 0, [], {})

  /** The summary of a run of entries, in journal order. */
  function Digest(entries: seq<Entry>): Summary {
    if entries == [] then NOTHING
    else Process(Digest(entries[..|entries| - 1]), entries[|entries| - 1])
  }

  /** The journal entries the first `n` lines of a poll's output locate. */
  function EntriesIn(output: seq<PollLine>, n: nat): seq<Entry>
    requires n <= |output|
  {
    if n == 0 then []
    else EntriesIn(output, n - 1) + if output[n - 1].Located? then [output[n - 1].entry] else []
  }

  /** The summary is that of the entries the first `n` lines locate. */
  predicate Digests(s: Summary, output: seq<PollLine>, n: nat) {
    n <= |output| && s == Digest(EntriesIn(output, n))
  }

  predicate Intact(output: seq<PollLine>, n: nat)
    requires n <= |output|
  {
    forall i :: 0 <= i < n ==> !output[i].NoCursor?
  }

  /** A parsed entry with which the number of entries reaches the backlog cap, or is past it. */
  predicate CapsAt(output: seq<PollLine>, i: nat)
    requires i < |output|
  {
    output[i].Located? && output[i].entry.Parsed? && 50_000 <= |EntriesIn(output, i + 1)|
  }

  /** No parsed entry among the first `n` lines reaches the cap. */
  predicate BelowCap(output: seq<PollLine>, n: nat)
    requires n <= |output|
  {
    forall i: nat :: i < n ==> !CapsAt(output, i)
  }

  /**
    Where reading a poll's output stops: at the first line without a cursor, after the
    first parsed entry that reaches the backlog cap, or at its end.
    */
  predicate PollEnds(output: seq<PollLine>, upTo: nat, cursorInvalid: bool, truncated: bool) {
    && upTo <= |output| && Intact(output, upTo)
    && (if truncated then !cursorInvalid && 0 < upTo && CapsAt(output, upTo - 1) && BelowCap(output, upTo - 1)
        else BelowCap(output, upTo))
    && (cursorInvalid ==> upTo < |output| && output[upTo].NoCursor?)
    && (!cursorInvalid && !truncated ==> upTo == |output|)
  }

  /** The output alone decides where reading stops, and why. */
  lemma PollEndIsUnique(output: seq<PollLine>, a: nat, invalid: bool, truncated: bool, b: nat, invalid': bool,
                        truncated': bool)
    requires PollEnds(output, a, invalid, truncated) && PollEnds(output, b, invalid', truncated')
    ensures a == b && invalid == invalid' && truncated == truncated'
  {
  }

  // ---------------------------------------------------------------- the records of a file

  function ToEvent(g: Group): Event {
    Event(g.first, g.key.cls, g.key.proto, g.key.port, g.key.dcls, g.key.fp, g.n)
  }

  function Rows(groups: seq<Group>): (rows: seq<Event>)
    ensures |rows| == |groups|
    ensures forall i :: 0 <= i < |rows| ==> rows[i] == ToEvent(groups[i])
  {
    seq(|groups|, i requires 0 <= i < |groups| => ToEvent(groups[i]))
  }

  function ClassRank(c: Class): nat {
    match c
    case DialTimeout => 0 case Dns => 1 case EofCancel => 2 case NetUnreachable => 3
    case Other => 4 case QuicError => 5 case Reset => 6 case TlsHandshake => 7
  }

  function ProtoRank(p: Proto): nat {
    match p case Hysteria2 => 0 case OtherProto => 1 case Reality => 2
  }

  function DestRank(d: Option<DestClass>): nat {
    match d
    case None => 0
    case Some(c) =>
      match c
      case Dns53 => 1 case Dot853 => 2 case Http80 => 3 case Https443 => 4
      case OtherDest => 5 case Quic => 6 case Smtpish => 7
  }

  function SortKey(e: Event): seq<int> {
    [-e.n, ClassRank(e.cls), ProtoRank(e.proto), if e.port.Some? then e.port.value else 0,
     DestRank(e.dcls), if e.fp.Some? then e.fp.value + 1 else 0]
  }

  predicate NotAfter(a: seq<int>, b: seq<int>) {
    a == [] || (b != [] && (a[0] < b[0] || (a[0] == b[0] && NotAfter(a[1..], b[1..]))))
  }

  function Insert(e: Event, rows: seq<Event>): seq<Event> {
    if rows == [] || NotAfter(SortKey(e), SortKey(rows[0])) then [e] + rows
    else [rows[0]] + Insert(e, rows[1..])
  }

  function Sort(rows: seq<Event>): seq<Event> {
    if rows == [] then [] else Insert(rows[0], Sort(rows[1..]))
  }

  function CountOf(rows: seq<Event>, c: Class): int {
    if rows == [] then 0
    else CountOf(rows[..|rows| - 1], c) + if rows[|rows| - 1].cls == c then rows[|rows| - 1].n else 0
  }

  predicate Mentions(rows: seq<Event>, c: Class) {
    exists i :: 0 <= i < |rows| && rows[i].cls == c
  }

  function Earliest(rows: seq<Event>, c: Class): int
    requires Mentions(rows, c)
  {
    var n := |rows| - 1;
    if !Mentions(rows[..n], c) then rows[n].ts
    else if rows[n].cls == c then Min(Earliest(rows[..n], c), rows[n].ts)
    else Earliest(rows[..n], c)
  }

  /** The class-level row that stands for every row of class `c`. */
  function Bucket(rows: seq<Event>, c: Class): Event
    requires Mentions(rows, c)
  {
    Event(Earliest(rows, c), c, OtherProto, None, None, None, CountOf(rows, c))
  }

  function Fold(rows: seq<Event>, classes: seq<Class>): seq<Event> {
    if classes == [] then []
    else (if Mentions(rows, classes[0]) then [Bucket(rows, classes[0])] else []) + Fold(rows, classes[1..])
  }

  /** The records written for `groups`: all of them, or the most frequent ones and one row per class for the rest. */
  function Records(groups: seq<Group>): seq<Event> {
    var rows := Rows(groups);
    if |rows| <= MAX_RECORDS then rows
    else
      SortLength(rows);
      Sort(rows)[..KEPT] + Fold(Sort(rows)[KEPT..], ALPHABETICAL)
  }

  function Folded(groups: seq<Group>): nat {
    if |groups| <= MAX_RECORDS then 0 else |groups| - KEPT
  }

  function EventLines(events: seq<Event>): (lines: seq<Line>)
    ensures |lines| == |events|
    ensures forall i :: 0 <= i < |lines| ==> lines[i] == EventLine(events[i], true)
  {
    seq(|events|, i requires 0 <= i < |events| => EventLine(events[i], true))
  }

  predicate AllValid(events: seq<Event>) {
    forall i :: 0 <= i < |events| ==> ValidEvent(events[i])
  }

  /** The file body for a batch, or nothing when the reader's own validation refuses it. */
  function Body(s: Summary, seqNo: int, run: nat, epoch: int, boundary: Boundary): Option<seq<Line>> {
    var header := Header(seqNo, run, epoch, boundary, s.processed, s.eligible, s.infoDropped, s.nomatchDropped,
                         s.priorityUnusable, s.pfail, s.limited + Folded(s.groups));
    var records := Records(s.groups);
    if ValidHeader(header) && AllValid(records) then
      Some([HeaderLine(header, true)] + EventLines(records))
    else None
  }

  // ---------------------------------------------------------------- the in-place form

  class Batch {
    var lines: nat
    var processed: nat
    var pfail: nat
    var eligible: nat
    var infoDropped: nat
    var nomatchDropped: nat
    var priorityUnusable: nat
    var limited: nat
    var cursorInvalid: bool
    var groups: seq<Group>
    var fps: set<Fingerprint>

    function View(): Summary
      reads this
    {
      Summary(processed, pfail, eligible, infoDropped, nomatchDropped, priorityUnusable, limited, groups, fps)
    }

    constructor ()
      ensures View() == NOTHING && lines == 0 && !cursorInvalid
    {
      lines, processed, pfail, eligible, infoDropped := 0, 0, 0, 0, 0;
      nomatchDropped, priorityUnusable, limited := 0, 0, 0;
      cursorInvalid, groups, fps := false, [], {};
    }

    method AbsorbDecision(d: Decision, ts: int)
      modifies this
      ensures View() == Absorb(old(View()), d, ts)
      ensures lines == old(lines) && cursorInvalid == old(cursorInvalid)
    {
      match d {
        case DropInfo =>
          infoDropped := infoDropped + 1;
        case DropNoMatch(unusable) =>
          nomatchDropped := nomatchDropped + 1;
          if unusable { priorityUnusable := priorityUnusable + 1; }
        case Eligible(_, _, _, _, _) =>
          AbsorbEligible(d, ts);
      }
    }

    method AbsorbEligible(d: Decision, ts: int)
      requires d.Eligible?
      modifies this`eligible, this`limited, this`fps, this`groups
      ensures View() == Absorb(old(View()), d, ts)
    {
      var key := Key(if d.cls.Some? then d.cls.value else Other, d.proto, d.port, d.dcls, None);
      var folded := false;
      if d.cls.None? {
        if d.template.None? {
          folded := true;
        } else if d.template.value !in fps && |fps| >= MAX_FINGERPRINTS {
          key := Key(Other, OtherProto, None, None, None);
          folded := true;
        } else {
          key := key.(fp := d.template);
          fps := fps + {d.template.value};
        }
      }
      assert (key, folded) == Classify(d, old(fps));
      eligible := eligible + 1;
      limited := limited + if folded then 1 else 0;
      groups := Tally(groups, key, ts);
    }

    method Take(entry: Entry)
      modifies this
      ensures View() == Process(old(View()), entry)
      ensures processed == old(processed) + 1
      ensures lines == old(lines) && cursorInvalid == old(cursorInvalid)
    {
      processed := processed + 1;
      match entry {
        case Unparsable => pfail := pfail + 1;
        case Parsed(ts, d) => AbsorbDecision(d, ts);
      }
    }

    /**
      `_consume`: reads `upTo` lines, stopping before the first line without a
      usable cursor, or after the first parsed entry that reaches the backlog cap. The
      batch is the digest of exactly the entries those lines locate.
      */
    method Consume(output: seq<PollLine>) returns (upTo: nat, truncated: bool)
      requires View() == NOTHING && lines == 0 && !cursorInvalid
      modifies this
      ensures PollEnds(output, upTo, cursorInvalid, truncated)
      ensures Digests(View(), output, upTo) && lines == processed + if cursorInvalid then 1 else 0
    {
      hide EntriesIn, Digest;
      NothingRead(output);
      upTo, truncated := 0, false;
      while upTo < |output| && !truncated
        invariant upTo <= |output| && !cursorInvalid
        invariant Digests(View(), output, upTo) && lines == processed == |EntriesIn(output, upTo)|
        invariant Intact(output, upTo) && (truncated ==> 0 < upTo && CapsAt(output, upTo - 1))
        invariant BelowCap(output, if truncated then upTo - 1 else upTo)
        decreases |output| - upTo
      {
        var line := output[upTo];
        if line.NoCursor? {
          lines := lines + 1;
          cursorInvalid := true;
          return;
        }
        if line.Located? {
          TakeLocated(line.entry, output, upTo);
          EntriesExtend(output, upTo);
          truncated := line.entry.Parsed? && processed >= BACKLOG_CAP;
        } else {
          EntriesExtend(output, upTo);
        }
        upTo := upTo + 1;
      }
    }

    method TakeLocated(entry: Entry, ghost output: seq<PollLine>, ghost n: nat)
      requires n < |output| && output[n] == Located(entry) && Digests(View(), output, n)
      modifies this
      ensures Digests(View(), output, n + 1)
      ensures processed == old(processed) + 1 && lines == old(lines) + 1 && cursorInvalid == old(cursorInvalid)
    {
      EntriesExtend(output, n);
      DigestExtends(EntriesIn(output, n), entry);
      lines := lines + 1;
      Take(entry);
    }

    /** `_records`: builds the rows and, past the record cap, folds the least frequent ones class by class. */
    method TakeRecords() returns (records: seq<Event>)
      modifies this`limited
      ensures records == Records(groups)
      ensures limited == old(limited) + Folded(groups)
    {
      var rows := Rows(groups);
      if |rows| <= MAX_RECORDS {
        return rows;
      }
      SortLength(rows);
      rows := Sort(rows);
      var fold := FoldRows(rows[KEPT..]);
      var buckets := InOrder(fold, rows[KEPT..], ALPHABETICAL);
      limited := limited + |rows[KEPT..]|;
      records := rows[..KEPT] + buckets;
    }
  }

  lemma NothingRead(output: seq<PollLine>)
    ensures EntriesIn(output, 0) == [] && Digest([]) == NOTHING
  {
  }

  lemma EntriesExtend(output: seq<PollLine>, n: nat)
    requires n < |output|
    ensures EntriesIn(output, n + 1) ==
      if output[n].Located? then EntriesIn(output, n) + [output[n].entry] else EntriesIn(output, n)
  {
  }

  lemma DigestExtends(entries: seq<Entry>, e: Entry)
    ensures Digest(entries + [e]) == Process(Digest(entries), e)
  {
    assert (entries + [e])[..|entries|] == entries;
  }

  /** The overflow loop: one bucket per class met. */
  method FoldRows(rest: seq<Event>) returns (fold: map<Class, Event>)
    ensures forall c :: c in fold <==> Mentions(rest, c)
    ensures forall c :: c in fold ==> fold[c] == Bucket(rest, c)
  {
    fold := map[];
    var i := 0;
    while i < |rest|
      invariant 0 <= i <= |rest|
      invariant forall c :: c in fold <==> Mentions(rest[..i], c)
      invariant forall c :: c in fold ==> fold[c] == Bucket(rest[..i], c)
    {
      var row := rest[i];
      var bucket := if row.cls in fold then fold[row.cls]
                    else Event(row.ts, row.cls, OtherProto, None, None, None, 0);
      OneMoreRow(rest, i);
      fold := fold[row.cls := bucket.(ts := Min(bucket.ts, row.ts), n := bucket.n + row.n)];
      i := i + 1;
    }
    assert rest[..i] == rest;
  }

  /** The buckets in the order of `classes`. */
  method InOrder(fold: map<Class, Event>, ghost rest: seq<Event>, classes: seq<Class>) returns (buckets: seq<Event>)
    requires forall c :: c in fold <==> Mentions(rest, c)
    requires forall c :: c in fold ==> fold[c] == Bucket(rest, c)
    ensures buckets == Fold(rest, classes)
  {
    buckets := [];
    var k := |classes|;
    while k > 0
      invariant 0 <= k <= |classes|
      invariant buckets == Fold(rest, classes[k..])
    {
      k := k - 1;
      assert classes[k..][1..] == classes[k + 1..];
      if classes[k] in fold {
        buckets := [fold[classes[k]]] + buckets;
      }
    }
    assert classes[0..] == classes;
  }

  lemma OneMoreRow(rest: seq<Event>, i: nat)
    requires i < |rest|
    ensures forall c :: Mentions(rest[..i + 1], c) <==> Mentions(rest[..i], c) || c == rest[i].cls
    ensures forall c :: Mentions(rest[..i], c) && c != rest[i].cls ==> Bucket(rest[..i + 1], c) == Bucket(rest[..i], c)
    ensures var e := rest[i];
      Bucket(rest[..i + 1], e.cls) ==
      if Mentions(rest[..i], e.cls) then
        var b := Bucket(rest[..i], e.cls); b.(ts := Min(b.ts, e.ts), n := b.n + e.n)
      else Event(e.ts, e.cls, OtherProto, None, None, None, e.n)
  {
    var now := rest[..i + 1];
    assert now[i] == rest[i] && now[..i] == rest[..i];
    assert forall k :: 0 <= k < i ==> now[k] == rest[..i][k];
    if !Mentions(rest[..i], rest[i].cls) { NoCountUnmentioned(rest[..i], rest[i].cls); }
  }

  // ---------------------------------------------------------------- sorting and folding keep the counts

  lemma {:induction false} InsertLength(e: Event, rows: seq<Event>)
    ensures |Insert(e, rows)| == |rows| + 1
  {
    if rows != [] { InsertLength(e, rows[1..]); }
  }

  lemma {:induction false} SortLength(rows: seq<Event>)
    ensures |Sort(rows)| == |rows|
  {
    if rows != [] {
      SortLength(rows[1..]);
      InsertLength(rows[0], Sort(rows[1..]));
    }
  }

  lemma {:induction false} CountConcat(a: seq<Event>, b: seq<Event>, c: Class)
    ensures CountOf(a + b, c) == CountOf(a, c) + CountOf(b, c)
  {
    if b == [] {
      assert a + b == a;
    } else {
      var n := |b| - 1;
      assert (a + b)[..|a + b| - 1] == a + b[..n];
      CountConcat(a, b[..n], c);
    }
  }

  lemma {:induction false} NoCountUnmentioned(rows: seq<Event>, c: Class)
    requires !Mentions(rows, c)
    ensures CountOf(rows, c) == 0
  {
    if rows != [] {
      var n := |rows| - 1;
      assert forall i :: 0 <= i < n ==> rows[..n][i] == rows[i];
      NoCountUnmentioned(rows[..n], c);
    }
  }

  lemma {:induction false} InsertCounts(e: Event, rows: seq<Event>, c: Class)
    ensures CountOf(Insert(e, rows), c) == CountOf([e], c) + CountOf(rows, c)
    ensures multiset(Insert(e, rows)) == multiset([e]) + multiset(rows)
  {
    if rows == [] || NotAfter(SortKey(e), SortKey(rows[0])) {
      CountConcat([e], rows, c);
    } else {
      assert rows == [rows[0]] + rows[1..];
      InsertCounts(e, rows[1..], c);
      CountConcat([rows[0]], Insert(e, rows[1..]), c);
      CountConcat([rows[0]], rows[1..], c);
    }
  }

  lemma {:induction false} SortCounts(rows: seq<Event>, c: Class)
    ensures CountOf(Sort(rows), c) == CountOf(rows, c)
    ensures multiset(Sort(rows)) == multiset(rows)
  {
    if rows != [] {
      assert rows == [rows[0]] + rows[1..];
      SortCounts(rows[1..], c);
      InsertCounts(rows[0], Sort(rows[1..]), c);
      CountConcat([rows[0]], rows[1..], c);
    }
  }

  predicate Frequent(rows: seq<Event>) {
    forall i, j :: 0 <= i < j < |rows| ==> rows[j].n <= rows[i].n
  }

  lemma {:induction false} InsertBelow(e: Event, rows: seq<Event>, bound: int)
    requires e.n <= bound && forall i :: 0 <= i < |rows| ==> rows[i].n <= bound
    ensures forall i :: 0 <= i < |Insert(e, rows)| ==> Insert(e, rows)[i].n <= bound
  {
    if rows != [] { InsertBelow(e, rows[1..], bound); }
  }

  lemma {:induction false} InsertFrequent(e: Event, rows: seq<Event>)
    requires Frequent(rows)
    ensures Frequent(Insert(e, rows))
  {
    if rows == [] || NotAfter(SortKey(e), SortKey(rows[0])) {
    } else {
      InsertFrequent(e, rows[1..]);
      InsertBelow(e, rows[1..], rows[0].n);
    }
  }

  lemma {:induction false} SortFrequent(rows: seq<Event>)
    ensures Frequent(Sort(rows))
  {
    if rows != [] {
      SortFrequent(rows[1..]);
      InsertFrequent(rows[0], Sort(rows[1..]));
    }
  }

  lemma {:induction false} FoldCounts(rows: seq<Event>, classes: seq<Class>, c: Class)
    requires forall i, j :: 0 <= i < j < |classes| ==> classes[i] != classes[j]
    ensures |Fold(rows, classes)| <= |classes|
    ensures CountOf(Fold(rows, classes), c) == if c in classes then CountOf(rows, c) else 0
  {
    if classes != [] {
      var here := if Mentions(rows, classes[0]) then [Bucket(rows, classes[0])] else [];
      FoldCounts(rows, classes[1..], c);
      CountConcat(here, Fold(rows, classes[1..]), c);
      if !Mentions(rows, classes[0]) { NoCountUnmentioned(rows, classes[0]); }
      assert CountOf(here, c) == if c == classes[0] then CountOf(rows, c) else 0 by {
        if here != [] { assert here[..0] == []; }
      }
    }
  }

  lemma EveryClassIsNamedOnce()
    ensures forall c: Class :: c in ALPHABETICAL
    ensures forall i, j :: 0 <= i < j < |ALPHABETICAL| ==> ALPHABETICAL[i] != ALPHABETICAL[j]
  {
    forall c: Class ensures c in ALPHABETICAL {
      assert ALPHABETICAL[ClassRank(c)] == c;
    }
  }

  /** Folding loses no count: each class has as many entries in the file as it had groups' entries, within the cap. */
  lemma RecordsKeepCounts(groups: seq<Group>, c: Class)
    ensures |Records(groups)| <= MAX_RECORDS
    ensures CountOf(Records(groups), c) == CountOf(Rows(groups), c)
  {
    var rows := Rows(groups);
    if |rows| > MAX_RECORDS {
      SortLength(rows);
      SortCounts(rows, c);
      EveryClassIsNamedOnce();
      var sorted := Sort(rows);
      var kept, rest := sorted[..KEPT], sorted[KEPT..];
      assert sorted == kept + rest;
      CountConcat(kept, rest, c);
      FoldCounts(rest, ALPHABETICAL, c);
      CountConcat(kept, Fold(rest, ALPHABETICAL), c);
    }
  }

  /** Only the least frequent rows lose their detail: every kept row counts at least as much as any folded one. */
  lemma FoldingSparesTheFrequent(groups: seq<Group>, i: nat, j: nat)
    requires MAX_RECORDS < |groups|
    requires i < KEPT <= j < |groups|
    ensures |Sort(Rows(groups))| == |groups|
    ensures Records(groups)[i] == Sort(Rows(groups))[i]
    ensures Sort(Rows(groups))[j].n <= Records(groups)[i].n
  {
    SortLength(Rows(groups));
    SortFrequent(Rows(groups));
  }

  // ---------------------------------------------------------------- conservation

  /** How many of the entries are eligible evidence of class `c`. */
  function Evidence(entries: seq<Entry>, c: Class): nat {
    if entries == [] then 0
    else
      var e := entries[|entries| - 1];
      Evidence(entries[..|entries| - 1], c) + if IsEvidence(e, c) then 1 else 0
  }

  predicate IsEvidence(e: Entry, c: Class) {
    e.Parsed? && e.decision.Eligible? && c == if e.decision.cls.Some? then e.decision.cls.value else Other
  }

  /** What the classifier guarantees of a decision: a port in range, and a destination class only with a port. */
  predicate Classified(e: Entry) {
    e.Parsed? && e.decision.Eligible? ==>
      && (e.decision.port.Some? ==> 1 <= e.decision.port.value <= 65535)
      && (e.decision.dcls.Some? ==> e.decision.port.Some?)
  }

  predicate Plausible(e: Entry) {
    e.Parsed? ==> 0 <= e.ts <= MAX_TS
  }

  predicate SoundGroup(g: Group, fps: set<Fingerprint>) {
    && 1 <= g.n
    && (g.key.fp.Some? ==> g.key.cls == Other && g.key.fp.value in fps)
  }

  lemma RowsSplit(groups: seq<Group>, c: Class)
    requires groups != []
    ensures CountOf(Rows(groups), c) ==
      (if groups[0].key.cls == c then groups[0].n else 0) + CountOf(Rows(groups[1..]), c)
  {
    var first := [ToEvent(groups[0])];
    assert Rows(groups) == first + Rows(groups[1..]);
    CountConcat(first, Rows(groups[1..]), c);
    assert first[..0] == [];
  }

  lemma {:induction false} TallyCounts(groups: seq<Group>, key: Key, ts: int, c: Class)
    ensures CountOf(Rows(Tally(groups, key, ts)), c) == CountOf(Rows(groups), c) + if key.cls == c then 1 else 0
  {
    var after := Tally(groups, key, ts);
    RowsSplit(after, c);
    if groups == [] {
      assert after[1..] == [];
    } else {
      RowsSplit(groups, c);
      if groups[0].key == key {
        assert after[1..] == groups[1..];
      } else {
        TallyCounts(groups[1..], key, ts, c);
        assert after[1..] == Tally(groups[1..], key, ts);
      }
    }
  }

  /** The groups a tally touches: each is an old group, or the one for `key`. */
  lemma {:induction false} TallyMembers(groups: seq<Group>, key: Key, ts: int)
    ensures forall g :: g in Tally(groups, key, ts) ==>
      || g in groups
      || (g.key == key && 1 <= g.n
          && (g.first == ts || exists h :: h in groups && h.key == key && g.first == Min(h.first, ts)))
  {
    if groups != [] && groups[0].key != key { TallyMembers(groups[1..], key, ts); }
  }

  predicate SoundGroups(groups: seq<Group>, fps: set<Fingerprint>) {
    forall g :: g in groups ==> SoundGroup(g, fps)
  }

  /** Admitting a fingerprint never passes the cap. */
  lemma FingerprintsCapped(d: Decision, fps: set<Fingerprint>)
    requires d.Eligible? && |fps| <= MAX_FINGERPRINTS
    ensures var key := Classify(d, fps).0; |fps + if key.fp.Some? then {key.fp.value} else {}| <= MAX_FINGERPRINTS
  {
    var key := Classify(d, fps).0;
    if key.fp.Some? && key.fp.value in fps { assert fps + {key.fp.value} == fps; }
  }

  lemma TallySound(groups: seq<Group>, d: Decision, ts: int, fps: set<Fingerprint>)
    requires d.Eligible? && SoundGroups(groups, fps)
    ensures var key := Classify(d, fps).0;
      SoundGroups(Tally(groups, key, ts), fps + if key.fp.Some? then {key.fp.value} else {})
  {
    TallyMembers(groups, Classify(d, fps).0, ts);
  }

  lemma ProcessCountsEvidence(s: Summary, e: Entry, c: Class)
    requires |s.fps| <= MAX_FINGERPRINTS && SoundGroups(s.groups, s.fps)
    ensures var t := Process(s, e);
      && |t.fps| <= MAX_FINGERPRINTS && SoundGroups(t.groups, t.fps)
      && CountOf(Rows(t.groups), c) == CountOf(Rows(s.groups), c) + if IsEvidence(e, c) then 1 else 0
  {
    if e.Parsed? && e.decision.Eligible? {
      TallyCounts(s.groups, Classify(e.decision, s.fps).0, e.ts, c);
      TallySound(s.groups, e.decision, e.ts, s.fps);
      FingerprintsCapped(e.decision, s.fps);
    }
  }

  /** Every processed entry is counted exactly once: unusable, dropped for one of two reasons, or eligible. */
  lemma {:induction false} DigestConserves(entries: seq<Entry>)
    ensures var s := Digest(entries);
      && s.processed == |entries|
      && s.processed == s.pfail + s.infoDropped + s.nomatchDropped + s.eligible
      && s.priorityUnusable <= s.nomatchDropped
  {
    if entries != [] { DigestConserves(entries[..|entries| - 1]); }
  }

  /** Eligible entries are counted under their class, and at most sixteen fingerprints are ever admitted. */
  lemma {:induction false} DigestCountsEvidence(entries: seq<Entry>, c: Class)
    ensures var s := Digest(entries);
      && CountOf(Rows(s.groups), c) == Evidence(entries, c)
      && |s.fps| <= MAX_FINGERPRINTS
      && SoundGroups(s.groups, s.fps)
  {
    if entries != [] {
      var n := |entries| - 1;
      DigestCountsEvidence(entries[..n], c);
      ProcessCountsEvidence(Digest(entries[..n]), entries[n], c);
    }
  }

  predicate ValidGroups(groups: seq<Group>) {
    forall g :: g in groups ==> ValidEvent(ToEvent(g))
  }

  /** A key whose groups are events the schema allows, whenever they were seen. */
  predicate ValidKey(key: Key) {
    && (key.port.Some? ==> 1 <= key.port.value <= 65535)
    && (key.fp.Some? ==> key.cls == Other)
    && (key.dcls.Some? ==> key.port.Some?)
  }

  lemma {:induction false} TallyPlausible(groups: seq<Group>, key: Key, ts: int)
    requires ValidGroups(groups) && ValidKey(key) && 0 <= ts <= MAX_TS
    ensures ValidGroups(Tally(groups, key, ts))
  {
    if groups != [] {
      assert groups[0] in groups;
      if groups[0].key != key { TallyPlausible(groups[1..], key, ts); }
    }
  }

  lemma ProcessPlausible(s: Summary, e: Entry)
    requires ValidGroups(s.groups) && Classified(e) && Plausible(e)
    ensures ValidGroups(Process(s, e).groups)
  {
    hide Tally, ValidGroups;
    if e.Parsed? && e.decision.Eligible? {
      TallyPlausible(s.groups, Classify(e.decision, s.fps).0, e.ts);
    }
  }

  /** With classified, plausible entries every group is one the schema allows. */
  lemma {:induction false} DigestPlausible(entries: seq<Entry>)
    requires forall i :: 0 <= i < |entries| ==> Classified(entries[i]) && Plausible(entries[i])
    ensures ValidGroups(Digest(entries).groups)
  {
    if entries != [] {
      var n := |entries| - 1;
      DigestPlausible(entries[..n]);
      ProcessPlausible(Digest(entries[..n]), entries[n]);
    }
  }

  lemma {:induction false} EarliestIsPlausible(rows: seq<Event>, c: Class)
    requires Mentions(rows, c)
    requires AllValid(rows)
    ensures ValidEvent(Bucket(rows, c))
  {
    var n := |rows| - 1;
    assert forall i :: 0 <= i < n ==> rows[..n][i] == rows[i];
    if Mentions(rows[..n], c) {
      EarliestIsPlausible(rows[..n], c);
    } else {
      NoCountUnmentioned(rows[..n], c);
    }
  }

  lemma {:induction false} FoldIsValid(rows: seq<Event>, classes: seq<Class>)
    requires AllValid(rows)
    ensures AllValid(Fold(rows, classes))
  {
    if classes != [] {
      FoldIsValid(rows, classes[1..]);
      if Mentions(rows, classes[0]) { EarliestIsPlausible(rows, classes[0]); }
    }
  }

  lemma SortIsValid(rows: seq<Event>)
    requires AllValid(rows)
    ensures AllValid(Sort(rows))
  {
    var sorted := Sort(rows);
    SortCounts(rows, Other);
    forall i | 0 <= i < |sorted| ensures ValidEvent(sorted[i]) {
      assert sorted[i] in multiset(sorted);
      assert sorted[i] in rows;
    }
  }

  lemma RecordsAreValid(groups: seq<Group>)
    requires ValidGroups(groups)
    ensures AllValid(Records(groups))
  {
    hide Sort, Fold;
    var rows := Rows(groups);
    if |rows| > MAX_RECORDS {
      SortLength(rows);
      SortIsValid(rows);
      FoldIsValid(Sort(rows)[KEPT..], ALPHABETICAL);
    }
  }

  /**
    End to end: whatever a poll delivers, if its timestamps are plausible the
    reader writes a body, the consumer accepts it for that number, it holds at
    most two hundred records, and per class it counts exactly the evidence.
    */
  lemma BodyIsAcceptedAndConserves(entries: seq<Entry>, seqNo: int, run: nat, epoch: int, boundary: Boundary, c: Class)
    requires forall i :: 0 <= i < |entries| ==> Classified(entries[i]) && Plausible(entries[i])
    requires 1 <= seqNo && 1 <= epoch
    ensures var body := Body(Digest(entries), seqNo, run, epoch, boundary);
      var records := Records(Digest(entries).groups);
      && body.Some? && WellFormedFile(body.value, seqNo)
      && body.value[1..] == EventLines(records) && |records| <= MAX_RECORDS
      && CountOf(records, c) == Evidence(entries, c)
  {
    var s := Digest(entries);
    DigestConserves(entries);
    DigestCountsEvidence(entries, c);
    DigestPlausible(entries);
    RecordsKeepCounts(s.groups, c);
    RecordsAreValid(s.groups);
  }
}
