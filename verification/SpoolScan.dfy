/**
  Scanning the record chain (`_scan_records`, `pending` and the pruning loops of
  monitor-v2/remote_probe/spool.py): what the loops over the lines pick out, tied
  to what may be delivered and what retention may drop.
  */
module SpoolScan {
  import opened Prelude
  import opened SpoolChain
  import opened SpoolState

  /** What one scan reports: the readable records, the highest id, and the first unresolved corrupt id (or zero). */
  datatype ScanReport = ScanReport(found: seq<Line>, ceiling: nat, blocked: nat)

  /** The readable lines, in order. */
  function ReadableOf(lines: seq<Line>): seq<Line> {
    if lines == [] then [] else (if lines[0].Readable? then [lines[0]] else []) + ReadableOf(lines[1..])
  }

  /** The id of the first unresolved corrupt line, or zero. */
  function FirstCorrupt(lines: seq<Line>, cursor: nat): nat {
    if lines == [] then 0
    else if lines[0].Corrupt? && lines[0].id > cursor then lines[0].id
    else FirstCorrupt(lines[1..], cursor)
  }

  function LastId(lines: seq<Line>): nat {
    if lines == [] || lines[|lines| - 1].Lost? then 0 else lines[|lines| - 1].id
  }

  lemma NothingScanned(cursor: nat)
    ensures Ascending([]) && LastId([]) == 0 && ReadableOf([]) == [] && FirstCorrupt([], cursor) == 0
  {
  }

  /** What the scan does with the line at `i`. */
  lemma ScanStep(lines: seq<Line>, i: nat, cursor: nat)
    requires i < |lines|
    ensures ReadableOf(lines[i..]) == (if lines[i].Readable? then [lines[i]] else []) + ReadableOf(lines[i + 1..])
    ensures FirstCorrupt(lines[i..], cursor) ==
      if lines[i].Corrupt? && lines[i].id > cursor then lines[i].id else FirstCorrupt(lines[i + 1..], cursor)
    ensures !lines[i].Lost? ==> LastId(lines[..i + 1]) == lines[i].id
  {
    assert lines[i..][1..] == lines[i + 1..];
  }

  /** `_scan_records`: the id-integrity gate refuses exactly the chains that are not in ascending order. */
  method ScanLines(lines: seq<Line>, cursor: nat) returns (report: Option<ScanReport>)
    ensures report.Some? <==> Ascending(lines)
    ensures report.Some? ==>
      report.value == ScanReport(ReadableOf(lines), LastId(lines), FirstCorrupt(lines, cursor))
  {
    hide Ascending, ReadableOf, FirstCorrupt, LastId;
    var found, last, blocked := [], 0, 0;
    var i := 0;
    NothingScanned(cursor);
    assert lines[0..] == lines && lines[..0] == [];
    while i < |lines|
      invariant 0 <= i <= |lines|
      invariant Ascending(lines[..i]) && last == LastId(lines[..i])
      invariant found + ReadableOf(lines[i..]) == ReadableOf(lines)
      invariant (if blocked != 0 then blocked else FirstCorrupt(lines[i..], cursor)) == FirstCorrupt(lines, cursor)
    {
      var line := lines[i];
      AscendingPrefix(lines, i);
      ScanStep(lines, i, cursor);
      if line.Lost? || line.id <= last {
        return None;
      }
      Assoc(found, if line.Readable? then [line] else [], ReadableOf(lines[i + 1..]));
      if line.Readable? {
        found := found + [line];
      } else if line.id > cursor && blocked == 0 {
        blocked := line.id;
      }
      last := line.id;
      i := i + 1;
    }
    assert lines[..i] == lines && lines[i..] == [] && found + [] == found;
    return Some(ScanReport(found, last, blocked));
  }

  /** One more line keeps the order exactly if its id is known and above the last one. */
  lemma AscendingPrefix(lines: seq<Line>, i: nat)
    requires i < |lines| && Ascending(lines[..i])
    ensures Ascending(lines[..i + 1]) <==> !lines[i].Lost? && lines[i].id > LastId(lines[..i])
    ensures !Ascending(lines[..i + 1]) ==> !Ascending(lines)
  {
    var before, upto := lines[..i], lines[..i + 1];
    assert forall k :: 0 <= k < i ==> upto[k] == before[k];
  }

  /** What the delivery loop picks from a scan: unresolved records, up to the blocker. */
  function Chosen(found: seq<Line>, cursor: nat, blocked: nat): seq<Line>
    requires forall k :: 0 <= k < |found| ==> found[k].Readable?
  {
    if found == [] || (blocked != 0 && found[0].id >= blocked) then []
    else (if found[0].id <= cursor then [] else [found[0]]) + Chosen(found[1..], cursor, blocked)
  }

  lemma ChosenFrom(found: seq<Line>, i: nat, cursor: nat, blocked: nat)
    requires i < |found| && forall k :: 0 <= k < |found| ==> found[k].Readable?
    ensures Chosen(found[i..], cursor, blocked) ==
      if blocked != 0 && found[i].id >= blocked then []
      else (if found[i].id <= cursor then [] else [found[i]]) + Chosen(found[i + 1..], cursor, blocked)
  {
    assert found[i..][1..] == found[i + 1..];
  }

  lemma NothingChosen(cursor: nat, blocked: nat)
    ensures Chosen([], cursor, blocked) == []
  {
  }

  method Choose(found: seq<Line>, cursor: nat, blocked: nat) returns (picked: seq<Line>)
    requires forall k :: 0 <= k < |found| ==> found[k].Readable?
    ensures picked == Chosen(found, cursor, blocked)
  {
    hide Chosen;
    NothingChosen(cursor, blocked);
    picked := [];
    var i := 0;
    assert found[0..] == found;
    while i < |found|
      invariant 0 <= i <= |found|
      invariant picked + Chosen(found[i..], cursor, blocked) == Chosen(found, cursor, blocked)
    {
      ChosenFrom(found, i, cursor, blocked);
      if blocked != 0 && found[i].id >= blocked { return; }
      Assoc(picked, if found[i].id <= cursor then [] else [found[i]], Chosen(found[i + 1..], cursor, blocked));
      if found[i].id > cursor {
        picked := picked + [found[i]];
      }
      i := i + 1;
    }
  }

  lemma {:induction false} ReadableFacts(lines: seq<Line>)
    ensures forall k :: 0 <= k < |ReadableOf(lines)| ==> ReadableOf(lines)[k].Readable? && ReadableOf(lines)[k] in lines
  {
    if lines != [] { ReadableFacts(lines[1..]); }
  }

  lemma {:induction false} FirstCorruptFacts(lines: seq<Line>, cursor: nat)
    ensures FirstCorrupt(lines, cursor) != 0 ==>
      exists l :: l in lines && l.Corrupt? && l.id == FirstCorrupt(lines, cursor)
  {
    if lines != [] {
      FirstCorruptFacts(lines[1..], cursor);
      if lines[0].Corrupt? && lines[0].id > cursor { assert lines[0] in lines; }
    }
  }

  /**
    On a chain in order, what the loop picks is exactly what may be delivered, and it refuses
    exactly a blocked head.
    */
  lemma {:induction false} ChosenIsDeliverable(lines: seq<Line>, cursor: nat)
    requires Ascending(lines)
    ensures forall k :: 0 <= k < |ReadableOf(lines)| ==> ReadableOf(lines)[k].Readable?
    ensures Chosen(ReadableOf(lines), cursor, FirstCorrupt(lines, cursor)) == Deliverable(lines, cursor)
    ensures HeadBlocked(lines, cursor) <==> FirstCorrupt(lines, cursor) != 0 && Deliverable(lines, cursor) == []
  {
    ReadableFacts(lines);
    if lines != [] {
      HeadIsLeast(lines);
      ChosenIsDeliverable(lines[1..], cursor);
      ReadableFacts(lines[1..]);
      FirstCorruptFacts(lines[1..], cursor);
      var rest := ReadableOf(lines[1..]);
      if lines[0].Readable? {
        assert ([lines[0]] + rest)[1..] == rest;
      } else {
        assert [] + rest == rest;
      }
    }
  }

  lemma LastIdIsHighest(lines: seq<Line>)
    requires Ascending(lines)
    ensures AllBelow(lines, LastId(lines) + 1)
  {
  }

  /** The head is blocked exactly if nothing may be delivered and an unresolved corrupt line is why. */
  lemma {:induction false} BlockedExactly(lines: seq<Line>, cursor: nat)
    requires Ascending(lines)
    ensures HeadBlocked(lines, cursor) <==>
      Deliverable(lines, cursor) == [] && exists l :: l in lines && l.Corrupt? && cursor < l.id
  {
    if lines != [] {
      HeadIsLeast(lines);
      if lines[0].id <= cursor { BlockedExactly(lines[1..], cursor); }
    }
  }

  /** The last id is that of a line, unless there are none. */
  lemma LastIdNames(lines: seq<Line>)
    requires Ascending(lines)
    ensures lines == [] || Names(lines, LastId(lines))
  {
    if lines != [] { assert lines[|lines| - 1] in lines; }
  }

  /** The state a process starts from: the saved copy with its next id above every id on disk. */
  function Advanced(saved: State, lines: seq<Line>): State {
    saved.(next := Max(saved.next, LastId(lines) + 1))
  }

  lemma AdvancedWorks(c: Chain, max: nat, cap: nat, posts: Posts, saved: State)
    requires Stored(c, max, cap, posts, saved) && Ascending(Flat(c))
    ensures Working(c, max, posts, saved, Advanced(saved, Flat(c)))
  {
    LastIdIsHighest(Flat(c));
    TracksNext(Flat(c), posts, saved, Advanced(saved, Flat(c)).next);
  }

  lemma ReconciledWorks(c: Chain, max: nat, posts: Posts, saved: State, st: State)
    requires Working(c, max, posts, saved, st)
    ensures Working(c, max, posts, saved, st.(attempts := KeepLive(st.attempts, Flat(c), st.resolved)))
  {
    TracksReconciled(Flat(c), posts, st);
  }

  lemma LastIdBelow(lines: seq<Line>, wanted: nat, next: nat)
    requires Ascending(lines) && wanted == LastId(lines) + 1
    ensures wanted <= next ==> AllBelow(lines, next)
  {
    LastIdIsHighest(lines);
  }

  // ---------------------------------------------------------------- compaction of one file

  predicate HasLost(lines: seq<Line>) { exists l :: l in lines && l.Lost? }

  lemma {:induction false} FlatHas(c: Chain, k: nat, line: Line)
    requires k < |c| && line in LinesOf(c[k])
    ensures line in Flat(c)
  {
    if k > 0 { FlatHas(c[1..], k - 1, line); }
  }

  lemma OrderedHasNoLost(c: Chain, k: nat)
    requires k < |c| && Ascending(Flat(c))
    ensures !HasLost(LinesOf(c[k]))
  {
    forall l | l in LinesOf(c[k]) ensures !l.Lost? {
      FlatHas(c, k, l);
      var i :| 0 <= i < |Flat(c)| && Flat(c)[i] == l;
    }
  }

  lemma NothingCompacted(c: Chain, k: nat, cursor: nat)
    requires k < |c|
    ensures CompactStep(c, c, k, cursor)
    ensures c[k].None? ==> Unresolved(LinesOf(c[k]), cursor) == LinesOf(c[k])
  {
  }

  // ---------------------------------------------------------------- retention

  predicate Aged(line: Line, now: int, maxAge: int) {
    line.Readable? && now - line.epoch > maxAge
  }

  /** The id of the last aged record, or the cursor itself. */
  function AgedCursor(records: seq<Line>, cursor: nat, now: int, maxAge: int): (r: nat)
    ensures r == cursor || exists i :: 0 <= i < |records| && Aged(records[i], now, maxAge) && records[i].id == r
  {
    if records == [] then cursor
    else
      var last := records[|records| - 1];
      if Aged(last, now, maxAge) then last.id else AgedCursor(records[..|records| - 1], cursor, now, maxAge)
  }

  /** Age pruning: the cursor moves to the last aged record, so no deliverable record left above it is aged. */
  lemma {:induction false} NothingAgedIsLeft(records: seq<Line>, cursor: nat, now: int, maxAge: int)
    requires Ascending(records) && forall i :: 0 <= i < |records| ==> records[i].id > cursor
    ensures forall i :: 0 <= i < |records| && Aged(records[i], now, maxAge) ==>
      records[i].id <= AgedCursor(records, cursor, now, maxAge)
  {
    if records != [] {
      NothingAgedIsLeft(records[..|records| - 1], cursor, now, maxAge);
    }
  }

  method AgePrune(records: seq<Line>, cursor: nat, now: int, maxAge: int) returns (moved: nat)
    ensures moved == AgedCursor(records, cursor, now, maxAge)
  {
    moved := cursor;
    for i := 0 to |records|
      invariant moved == AgedCursor(records[..i], cursor, now, maxAge)
    {
      assert records[..i + 1][..i] == records[..i];
      if Aged(records[i], now, maxAge) {
        moved := records[i].id;
      }
    }
    assert records[..|records|] == records;
  }

  /**
    What retention may do to the lines: some go, but only at or below the new cursor; the
    cursor moves only to the id of a line that was there, and passes no corrupt line that was
    unresolved.
    */
  predicate Retained(start: seq<Line>, from: nat, lines: seq<Line>, cursor: nat) {
    && from <= cursor && (cursor == from || Names(start, cursor))
    && (forall l :: l in lines ==> l in start)
    && (forall l :: l in start && l !in lines ==> !l.Lost? && l.id <= cursor)
    && (forall l :: l in start && l.Corrupt? && l.id > from ==> cursor < l.id)
  }

  /** A line has this id. */
  predicate Names(lines: seq<Line>, id: nat) {
    exists l :: l in lines && !l.Lost? && l.id == id
  }

  lemma RetainedByCompaction(start: seq<Line>, from: nat, lines: seq<Line>, lines': seq<Line>, cursor: nat)
    requires Retained(start, from, lines, cursor) && Within(lines', lines)
    requires Unresolved(lines', cursor) == Unresolved(lines, cursor)
    ensures Retained(start, from, lines', cursor)
  {
    UnresolvedMembers(lines, cursor);
    UnresolvedMembers(lines', cursor);
    forall l | l in start && l !in lines' ensures !l.Lost? && l.id <= cursor {
      assert l !in Unresolved(lines, cursor);
    }
  }

  lemma RetainsItself(lines: seq<Line>, cursor: nat)
    ensures Retained(lines, cursor, lines, cursor)
  {
  }

  /** A compaction under an unchanged cursor. */
  lemma CompactionRetains(start: seq<Line>, cursor: nat, lines: seq<Line>)
    requires Within(lines, start) && Unresolved(lines, cursor) == Unresolved(start, cursor)
    ensures Retained(start, cursor, lines, cursor)
  {
    RetainedByCompaction(start, cursor, start, lines, cursor);
  }

  lemma RetainedKeeps(start: seq<Line>, from: nat, lines: seq<Line>, cursor: nat)
    requires Retained(start, from, lines, cursor)
    ensures forall l :: l in start && l.Corrupt? && from < l.id ==> l in lines && cursor < l.id
  {
  }

  lemma RetainedByDrop(start: seq<Line>, from: nat, lines: seq<Line>, cursor: nat, d: Line)
    requires Retained(start, from, lines, cursor) && Ascending(lines) && d in Deliverable(lines, cursor)
    requires d.Readable? && d.id > cursor
    ensures Retained(start, from, lines, d.id)
  {
    DeliverableOnDisk(lines, cursor, d);
    assert d in start;
    forall l | l in start && l.Corrupt? && l.id > from ensures d.id < l.id {
      assert l in lines;
    }
  }

  lemma RetainedTransitive(start: seq<Line>, from: nat, mid: seq<Line>, at: nat, lines: seq<Line>, cursor: nat)
    requires Retained(start, from, mid, at) && Retained(mid, at, lines, cursor)
    ensures Retained(start, from, lines, cursor)
  {
    forall l | l in start && l !in lines ensures !l.Lost? && l.id <= cursor {
      if l in mid {}
    }
    forall l | l in start && l.Corrupt? && l.id > from ensures cursor < l.id {
      assert l in mid;
    }
  }

  /** A readable unresolved line with no unresolved corrupt line before it is deliverable. */
  lemma {:induction false} DeliverableComplete(lines: seq<Line>, cursor: nat, d: Line)
    requires Ascending(lines) && d in lines && d.Readable? && d.id > cursor
    requires forall l :: l in lines && l.Corrupt? && l.id > cursor ==> d.id < l.id
    ensures d in Deliverable(lines, cursor)
  {
    HeadIsLeast(lines);
    assert lines[0] in lines;
    if d != lines[0] { DeliverableComplete(lines[1..], cursor, d); }
  }

  /** Retention makes nothing deliverable that was not. */
  lemma DeliverableShrinks(mid: seq<Line>, at: nat, lines: seq<Line>, cursor: nat, d: Line)
    requires Ascending(mid) && Ascending(lines) && Retained(mid, at, lines, cursor) && d in Deliverable(lines, cursor)
    ensures d in Deliverable(mid, at)
  {
    DeliverableFacts(lines, cursor);
    DeliverableOnDisk(lines, cursor, d);
    var i :| 0 <= i < |Deliverable(lines, cursor)| && Deliverable(lines, cursor)[i] == d;
    forall l | l in mid && l.Corrupt? && l.id > at ensures d.id < l.id {
      assert cursor < l.id && l in lines;
    }
    DeliverableComplete(mid, at, d);
  }

  /** No record that may still be delivered is older than the age bound. */
  predicate NoneAged(lines: seq<Line>, cursor: nat, now: int, maxAge: int) {
    forall d :: d in Deliverable(lines, cursor) ==> !Aged(d, now, maxAge)
  }

  lemma AgedOut(lines: seq<Line>, cursor: nat, moved: nat, now: int, maxAge: int)
    requires Ascending(lines) && moved == AgedCursor(Deliverable(lines, cursor), cursor, now, maxAge)
    requires Retained(lines, cursor, lines, moved)
    ensures NoneAged(lines, moved, now, maxAge)
  {
    var before := Deliverable(lines, cursor);
    DeliverableFacts(lines, cursor);
    DeliverableFacts(lines, moved);
    NothingAgedIsLeft(before, cursor, now, maxAge);
    forall d | d in Deliverable(lines, moved) ensures !Aged(d, now, maxAge) {
      DeliverableShrinks(lines, cursor, lines, moved, d);
      var i :| 0 <= i < |before| && before[i] == d;
      var j :| 0 <= j < |Deliverable(lines, moved)| && Deliverable(lines, moved)[j] == d;
    }
  }

  lemma NoneAgedLater(mid: seq<Line>, at: nat, lines: seq<Line>, cursor: nat, now: int, maxAge: int)
    requires Ascending(mid) && Ascending(lines) && Retained(mid, at, lines, cursor) && NoneAged(mid, at, now, maxAge)
    ensures NoneAged(lines, cursor, now, maxAge)
  {
    forall d | d in Deliverable(lines, cursor) ensures !Aged(d, now, maxAge) {
      DeliverableShrinks(mid, at, lines, cursor, d);
    }
  }

  // ---------------------------------------------------------------- freeing bytes

  /** Every file ends in a newline. */
  predicate Tidy(c: Chain) {
    forall k :: 0 <= k < |c| && c[k].Some? ==> c[k].value.tail.Ended?
  }

  lemma {:induction false} BytesAreLines(c: Chain)
    requires Tidy(c)
    ensures ChainBytes(c) == Size(Flat(c))
  {
    if c != [] {
      BytesAreLines(c[1..]);
      SizeConcat(LinesOf(c[0]), Flat(c[1..]));
    }
  }

  lemma {:induction false} UnresolvedSmaller(lines: seq<Line>, cursor: nat, d: Line)
    requires d in lines && !d.Lost? && d.id <= cursor
    ensures Size(Unresolved(lines, cursor)) < Size(lines)
  {
    UnresolvedMembers(lines[1..], cursor);
    var kept := Unresolved(lines[1..], cursor);
    if lines[0] != d {
      UnresolvedSmaller(lines[1..], cursor, d);
      if lines[0].Lost? || lines[0].id > cursor {
        assert ([lines[0]] + kept)[1..] == kept;
      } else {
        assert [] + kept == kept;
      }
    } else {
      assert [] + kept == kept;
    }
  }

  lemma CompactingGrowsNothing(c: Chain, c': Chain, cursor: nat)
    requires Tidy(c) && Tidy(c') && Flat(c') == Unresolved(Flat(c), cursor)
    ensures ChainBytes(c') <= ChainBytes(c)
  {
    BytesAreLines(c);
    BytesAreLines(c');
    UnresolvedMembers(Flat(c), cursor);
  }

  /** Resolving a record that is on disk and compacting always frees bytes. */
  lemma DroppingFrees(c: Chain, c': Chain, cursor: nat, d: Line)
    requires Tidy(c) && Tidy(c') && Flat(c') == Unresolved(Flat(c), cursor)
    requires d in Flat(c) && !d.Lost? && d.id <= cursor
    ensures ChainBytes(c') < ChainBytes(c)
  {
    BytesAreLines(c);
    BytesAreLines(c');
    UnresolvedSmaller(Flat(c), cursor, d);
  }

  // ---------------------------------------------------------------- what retention drops, exactly

  /** A record goes with age if it, or a deliverable record after it, has waited too long. */
  predicate Outlived(records: seq<Line>, d: Line, now: int, maxAge: int)
    requires d.Readable?
  {
    exists e :: e in records && e.Readable? && d.id <= e.id && e.epoch + maxAge < now
  }

  /**
    A record goes for want of room if the lines from it on are too many bytes, or if it is the first
    deliverable one and all the lines are: what went with age is still measured then.
    */
  predicate Crowded(lines: seq<Line>, cursor: nat, d: Line, maxBytes: nat)
    requires d.Readable? && 0 < d.id
  {
    || Size(Unresolved(lines, d.id - 1)) > maxBytes
    || (Size(lines) > maxBytes && forall e :: e in Deliverable(lines, cursor) && e.Readable? ==> d.id <= e.id)
  }

  /** What a pass over these lines drops, told by ages and sizes alone. */
  predicate Dropped(lines: seq<Line>, cursor: nat, d: Line, now: int, maxAge: int, maxBytes: nat)
    requires d.Readable? && 0 < d.id
  {
    var all := Deliverable(lines, cursor);
    || Outlived(all, d, now, maxAge)
    || Size(Unresolved(lines, d.id - 1)) > maxBytes
    || (Size(Unresolved(lines, cursor)) > maxBytes &&
        forall e :: e in all && e.Readable? && e.id < d.id ==> Outlived(all, e, now, maxAge))
  }

  /** The deliverable records that a pass has moved its cursor past were to be dropped. */
  predicate OnlyDropped(lines: seq<Line>, cursor: nat, moved: nat, now: int, maxAge: int, maxBytes: nat) {
    forall d :: d in Deliverable(lines, cursor) && d.Readable? && 0 < d.id <= moved ==>
      Dropped(lines, cursor, d, now, maxAge, maxBytes)
  }

  predicate AllDropped(lines: seq<Line>, cursor: nat, moved: nat, now: int, maxAge: int, maxBytes: nat) {
    forall d :: d in Deliverable(lines, cursor) && d.Readable? && 0 < d.id && moved < d.id ==>
      !Dropped(lines, cursor, d, now, maxAge, maxBytes)
  }

  predicate OnlyCrowded(lines: seq<Line>, cursor: nat, moved: nat, maxBytes: nat) {
    forall d :: d in Deliverable(lines, cursor) && d.Readable? && 0 < d.id <= moved ==>
      Crowded(lines, cursor, d, maxBytes)
  }

  predicate AllCrowded(lines: seq<Line>, cursor: nat, moved: nat, maxBytes: nat) {
    forall d :: d in Deliverable(lines, cursor) && d.Readable? && 0 < d.id && moved < d.id ==>
      !Crowded(lines, cursor, d, maxBytes)
  }

  lemma AgedExactly(records: seq<Line>, cursor: nat, now: int, maxAge: int, d: Line)
    requires Ascending(records) && d in records && d.Readable?
    requires forall i :: 0 <= i < |records| ==> records[i].Readable? && records[i].id > cursor
    ensures d.id <= AgedCursor(records, cursor, now, maxAge) <==> Outlived(records, d, now, maxAge)
  {
    NothingAgedIsLeft(records, cursor, now, maxAge);
    var moved := AgedCursor(records, cursor, now, maxAge);
    if d.id <= moved {
      var i :| 0 <= i < |records| && Aged(records[i], now, maxAge) && records[i].id == moved;
      assert records[i] in records;
    }
    if Outlived(records, d, now, maxAge) {
      var e :| e in records && e.Readable? && d.id <= e.id && e.epoch + maxAge < now;
      var i :| 0 <= i < |records| && records[i] == e;
      assert Aged(records[i], now, maxAge);
    }
  }

  lemma {:induction false} UnresolvedNested(lines: seq<Line>, a: nat, b: nat)
    requires a <= b
    ensures Unresolved(Unresolved(lines, a), b) == Unresolved(lines, b)
  {
    if lines != [] {
      UnresolvedNested(lines[1..], a, b);
      var kept := Unresolved(lines[1..], a);
      if lines[0].Lost? || lines[0].id > a {
        assert ([lines[0]] + kept)[1..] == kept;
      } else {
        assert [] + kept == kept;
      }
    }
  }

  lemma {:induction false} DeliverableOfUnresolved(lines: seq<Line>, cursor: nat)
    ensures Deliverable(Unresolved(lines, cursor), cursor) == Deliverable(lines, cursor)
  {
    if lines != [] {
      DeliverableOfUnresolved(lines[1..], cursor);
      var kept := Unresolved(lines[1..], cursor);
      if lines[0].Lost? || lines[0].id > cursor {
        assert ([lines[0]] + kept)[1..] == kept;
      } else {
        assert [] + kept == kept;
      }
    }
  }

  /** Moving the cursor past deliverable records leaves those above it deliverable, and no others. */
  lemma DeliverableAbove(lines: seq<Line>, from: nat, rest: seq<Line>, cursor: nat, d: Line)
    requires Ascending(lines) && Ascending(rest) && Retained(lines, from, rest, cursor)
    ensures d in Deliverable(rest, cursor) <==> d in Deliverable(lines, from) && d.Readable? && d.id > cursor
  {
    if d in Deliverable(rest, cursor) {
      DeliverableShrinks(lines, from, rest, cursor, d);
      DeliverableFacts(rest, cursor);
      var i :| 0 <= i < |Deliverable(rest, cursor)| && Deliverable(rest, cursor)[i] == d;
    }
    if d in Deliverable(lines, from) && d.Readable? && d.id > cursor {
      DeliverableOnDisk(lines, from, d);
      assert d in rest;
      DeliverableComplete(rest, cursor, d);
    }
  }

  /** What is left of `lines` when the byte loop has moved the cursor this far: it compacts with every drop. */
  predicate LoopState(lines: seq<Line>, from: nat, rest: seq<Line>, cursor: nat, maxBytes: nat) {
    && Ascending(lines) && Ascending(rest) && Retained(lines, from, rest, cursor)
    && rest == (if cursor == from then lines else Unresolved(lines, cursor))
    && OnlyCrowded(lines, from, cursor, maxBytes)
    && (cursor != from ==> exists d :: d in Deliverable(lines, from) && d.Readable? && d.id <= cursor)
  }

  lemma LoopStarts(lines: seq<Line>, from: nat, maxBytes: nat)
    requires Ascending(lines)
    ensures LoopState(lines, from, lines, from, maxBytes)
  {
    RetainsItself(lines, from);
    forall d | d in Deliverable(lines, from) ensures d.Readable? ==> d.id > from {
      DeliverableAbove(lines, from, lines, from, d);
    }
  }

  /** The first deliverable record is the first line above the cursor. */
  lemma {:induction false} HeadIsFirst(lines: seq<Line>, cursor: nat)
    requires Ascending(lines) && Deliverable(lines, cursor) != []
    ensures var d := Deliverable(lines, cursor)[0];
      d.Readable? && d in Deliverable(lines, cursor) && d in lines && d.id > cursor &&
      forall l :: l in lines && l.id > cursor ==> d.id <= l.id
  {
    HeadIsLeast(lines);
    if lines[0].id <= cursor { HeadIsFirst(lines[1..], cursor); }
  }

  lemma SameAbove(lines: seq<Line>, a: nat, b: nat)
    requires Ascending(lines) && a <= b && forall l :: l in lines && l.id > a ==> l.id > b
    ensures Unresolved(lines, a) == Unresolved(lines, b)
  {
    UnresolvedNested(lines, a, b);
    UnresolvedMembers(lines, a);
    UnresolvedIsSuffix(lines, a);
    var kept := Unresolved(lines, a);
    forall i | 0 <= i < |kept| ensures kept[i].id > b && kept[i] == lines[|lines| - |kept| + i] {
      assert kept[i] in kept;
    }
    AllAbove(kept, b);
  }

  /** One round: the first deliverable record goes when what is left is too many bytes. */
  lemma LoopDrops(lines: seq<Line>, from: nat, rest: seq<Line>, cursor: nat, maxBytes: nat)
    requires LoopState(lines, from, rest, cursor, maxBytes) && Size(rest) > maxBytes
    requires Deliverable(rest, cursor) != []
    ensures var d := Deliverable(rest, cursor)[0];
      d.Readable? && d.id > cursor && d in Deliverable(lines, from) &&
      Unresolved(rest, d.id) == Unresolved(lines, d.id) && OnlyCrowded(lines, from, d.id, maxBytes)
  {
    hide Crowded;
    HeadIsFirst(rest, cursor);
    var d := Deliverable(rest, cursor)[0];
    DeliverableAbove(lines, from, rest, cursor, d);
    if cursor != from { UnresolvedNested(lines, cursor, d.id); }
    HeadIsCrowded(lines, from, rest, cursor, maxBytes, d);
    forall e | e in Deliverable(lines, from) && e.Readable? && 0 < e.id <= d.id
      ensures Crowded(lines, from, e, maxBytes)
    {
      if e.id > cursor {
        DeliverableOnDisk(lines, from, e);
        DeliverableOnDisk(lines, from, d);
        assert e in rest;
        SameIdSameLine(lines, e, d);
      }
    }
  }

  lemma SameIdSameLine(lines: seq<Line>, a: Line, b: Line)
    requires Ascending(lines) && a in lines && b in lines && a.id == b.id
    ensures a == b
  {
  }

  lemma HeadIsCrowded(lines: seq<Line>, from: nat, rest: seq<Line>, cursor: nat, maxBytes: nat, d: Line)
    requires LoopState(lines, from, rest, cursor, maxBytes) && Size(rest) > maxBytes
    requires d in rest && d.Readable? && d.id > cursor && forall l :: l in rest && l.id > cursor ==> d.id <= l.id
    ensures Crowded(lines, from, d, maxBytes)
  {
    hide Size, OnlyCrowded, Retained, Ascending, Unresolved;
    if cursor == from {
      FirstOfAll(lines, from, d);
    } else {
      UnresolvedMembers(lines, cursor);
      NotLost(lines);
      SameAbove(lines, cursor, d.id - 1);
    }
  }

  lemma NotLost(lines: seq<Line>)
    requires Ascending(lines)
    ensures forall l :: l in lines ==> !l.Lost?
  {
  }

  lemma FirstOfAll(lines: seq<Line>, from: nat, d: Line)
    requires Ascending(lines) && d.Readable? && forall l :: l in lines && l.id > from ==> d.id <= l.id
    ensures forall e :: e in Deliverable(lines, from) && e.Readable? ==> d.id <= e.id
  {
    hide Deliverable, Ascending;
    RetainsItself(lines, from);
    forall e | e in Deliverable(lines, from) && e.Readable? ensures d.id <= e.id {
      DeliverableAbove(lines, from, lines, from, e);
      DeliverableOnDisk(lines, from, e);
    }
  }

  /** When the loop ends within the budget, nothing that is left was crowded. */
  lemma LoopEnds(lines: seq<Line>, from: nat, rest: seq<Line>, cursor: nat, maxBytes: nat)
    requires LoopState(lines, from, rest, cursor, maxBytes) && Size(rest) <= maxBytes
    ensures AllCrowded(lines, from, cursor, maxBytes)
  {
    hide Size, OnlyCrowded, Retained, Ascending;
    forall d | d in Deliverable(lines, from) && d.Readable? && 0 < d.id && cursor < d.id
      ensures !Crowded(lines, from, d, maxBytes)
    {
      UnresolvedMembers(rest, d.id - 1);
      if cursor != from { UnresolvedNested(lines, cursor, d.id - 1); }
    }
  }

  lemma LoopFacts(lines: seq<Line>, from: nat, rest: seq<Line>, cursor: nat, maxBytes: nat)
    ensures LoopState(lines, from, rest, cursor, maxBytes) ==>
      && Retained(lines, from, rest, cursor) && OnlyCrowded(lines, from, cursor, maxBytes)
      && rest == (if cursor == from then lines else Unresolved(lines, cursor))
  {
  }

  lemma LoopGoesOn(
      lines: seq<Line>, from: nat, rest: seq<Line>, cursor: nat, rest': seq<Line>, cursor': nat, maxBytes: nat)
    requires LoopState(lines, from, rest, cursor, maxBytes) && Size(rest) > maxBytes && Deliverable(rest, cursor) != []
    requires var d := Deliverable(rest, cursor)[0]; d.Readable? && cursor' == d.id
    requires rest' == Unresolved(rest, cursor') && Ascending(rest') && Retained(lines, from, rest', cursor')
    ensures LoopState(lines, from, rest', cursor', maxBytes)
  {
    hide OnlyCrowded, Unresolved, Deliverable, Ascending, Retained;
    LoopDrops(lines, from, rest, cursor, maxBytes);
    RetainedMovesUp(lines, from, rest, cursor);
  }

  lemma RetainedMovesUp(lines: seq<Line>, from: nat, rest: seq<Line>, cursor: nat)
    requires Retained(lines, from, rest, cursor)
    ensures from <= cursor
  {
  }

  /** When nothing deliverable is left, nothing that was crowded is. */
  lemma NothingLeft(lines: seq<Line>, from: nat, rest: seq<Line>, cursor: nat, maxBytes: nat)
    requires LoopState(lines, from, rest, cursor, maxBytes) && Deliverable(rest, cursor) == []
    ensures AllCrowded(lines, from, cursor, maxBytes)
  {
    hide Crowded, Deliverable;
    forall d | d in Deliverable(lines, from) && d.Readable? && cursor < d.id ensures d in Deliverable(rest, cursor) {
      DeliverableAbove(lines, from, rest, cursor, d);
    }
  }

  /** Both loops together: first age, then room, over lines that are all above the cursor. */
  lemma PassIsExact(lines: seq<Line>, cursor: nat, aged: nat, moved: nat, now: int, maxAge: int, maxBytes: nat)
    requires Ascending(lines) && Unresolved(lines, cursor) == lines && aged <= moved
    requires aged == AgedCursor(Deliverable(lines, cursor), cursor, now, maxAge) && Retained(lines, cursor, lines, aged)
    ensures OnlyCrowded(lines, aged, moved, maxBytes) ==> OnlyDropped(lines, cursor, moved, now, maxAge, maxBytes)
    ensures AllCrowded(lines, aged, moved, maxBytes) ==> AllDropped(lines, cursor, moved, now, maxAge, maxBytes)
  {
    hide Crowded, Dropped, AgedCursor;
    forall d | d in Deliverable(lines, cursor) && d.Readable? && 0 < d.id
      ensures d in Deliverable(lines, aged) <==> d.id > aged
      ensures d.id <= aged ==> Dropped(lines, cursor, d, now, maxAge, maxBytes)
      ensures d.id > aged ==>
        (Dropped(lines, cursor, d, now, maxAge, maxBytes) <==> Crowded(lines, aged, d, maxBytes))
    {
      DeliverableAbove(lines, cursor, lines, aged, d);
      DroppedIsAgedOrCrowded(lines, cursor, aged, d, now, maxAge, maxBytes);
    }
  }

  lemma DroppedIsAgedOrCrowded(
      lines: seq<Line>, cursor: nat, aged: nat, d: Line, now: int, maxAge: int, maxBytes: nat)
    requires Ascending(lines) && Unresolved(lines, cursor) == lines && d in Deliverable(lines, cursor)
    requires aged == AgedCursor(Deliverable(lines, cursor), cursor, now, maxAge) && Retained(lines, cursor, lines, aged)
    requires d.Readable? && 0 < d.id
    ensures Dropped(lines, cursor, d, now, maxAge, maxBytes) <==> d.id <= aged || Crowded(lines, aged, d, maxBytes)
  {
    hide Outlived, AgedCursor, Retained, Unresolved;
    var all := Deliverable(lines, cursor);
    DeliverableFacts(lines, cursor);
    forall e | e in all && e.Readable?
      ensures e.id <= aged <==> Outlived(all, e, now, maxAge)
      ensures e in Deliverable(lines, aged) <==> e.id > aged
    {
      AgedExactly(all, cursor, now, maxAge, e);
      DeliverableAbove(lines, cursor, lines, aged, e);
    }
    forall e | e in Deliverable(lines, aged) ensures e in all && e.Readable? {
      DeliverableAbove(lines, cursor, lines, aged, e);
    }
  }

  /** The first compaction of a pass changes nothing about what is dropped. */
  lemma DroppedAfterCompaction(lines: seq<Line>, cursor: nat, d: Line, now: int, maxAge: int, maxBytes: nat)
    requires d.Readable? && 0 < d.id && cursor < d.id
    ensures Dropped(Unresolved(lines, cursor), cursor, d, now, maxAge, maxBytes) <==>
      Dropped(lines, cursor, d, now, maxAge, maxBytes)
  {
    hide Outlived, Deliverable, Unresolved, Size;
    UnresolvedNested(lines, cursor, cursor);
    UnresolvedNested(lines, cursor, d.id - 1);
    DeliverableOfUnresolved(lines, cursor);
  }

  /** A readable line that the cursor has passed was deliverable. */
  lemma PassedWasDeliverable(lines: seq<Line>, from: nat, rest: seq<Line>, cursor: nat, l: Line)
    requires Ascending(lines) && Retained(lines, from, rest, cursor)
    requires l in lines && l.Readable? && from < l.id <= cursor
    ensures l in Deliverable(lines, from)
  {
    DeliverableComplete(lines, from, l);
  }

  /**
    With the shipped constants room is never wanting: a pass over a compacted chain drops a record
    exactly if it, or a deliverable record after it, is older than seven days.
    */
  lemma ShippedDropsOnlyTheAged(c: Chain, cursor: nat, d: Line, now: int, maxAge: int)
    requires Shaped(c, MAX_FILES, FILE_BYTES) && Tidy(c)
    requires d in Deliverable(Flat(c), cursor) && d.Readable? && 0 < d.id
    ensures Dropped(Flat(c), cursor, d, now, maxAge, MAX_TOTAL_BYTES) <==>
      exists e :: e in Deliverable(Flat(c), cursor) && e.Readable? && d.id <= e.id && now - e.epoch > maxAge
  {
    hide Shaped, Tidy, Flat, Unresolved, Deliverable;
    ShippedBound(c);
    BytesAreLines(c);
    UnresolvedMembers(Flat(c), cursor);
    UnresolvedMembers(Flat(c), d.id - 1);
    var all := Deliverable(Flat(c), cursor);
    if Dropped(Flat(c), cursor, d, now, maxAge, MAX_TOTAL_BYTES) {
      var e :| e in all && e.Readable? && d.id <= e.id && e.epoch + maxAge < now;
      assert now - e.epoch > maxAge;
    }
  }

  /**
    The input that costs a young record its place though the lines from it on would fit: the pass measures
    the aged record before it, which it has given up but not yet compacted away.
    */
  lemma AgedRecordCrowdsOutAYoungOne()
    ensures var lines := [Readable(1, 0, 100), Readable(2, 1000, 100)];
      && Dropped(lines, 0, lines[1], 1000, 500, 150)
      && !Outlived(Deliverable(lines, 0), lines[1], 1000, 500) && Size(Unresolved(lines, 1)) <= 150
  {
    var a, b := Readable(1, 0, 100), Readable(2, 1000, 100);
    var lines := [a, b];
    assert lines[1..] == [b] && [b][1..] == [];
    assert Deliverable(lines, 0) == lines && Unresolved(lines, 0) == lines && Unresolved(lines, 1) == [b];
    assert Size([b]) == 100 && Size(lines) == 200;
    assert a in lines && Outlived(lines, a, 1000, 500);
    forall e | e in lines && e.Readable? && e.id < b.id ensures Outlived(lines, e, 1000, 500) { assert e == a; }
  }

  // ---------------------------------------------------------------- rot

  /** A readable line whose payload has become unusable; its id can still be recovered. */
  function Rotten(line: Line): Line { if line.Readable? then Corrupt(line.id, line.size) else line }

  function RottenFile(f: File, i: nat): File
    requires i < |f.lines|
  {
    f.(lines := f.lines[i := Rotten(f.lines[i])])
  }

  predicate SameIds(a: seq<Line>, b: seq<Line>) {
    && |a| == |b|
    && (forall i :: 0 <= i < |a| ==> a[i] == b[i] || a[i] == Rotten(b[i]))
  }

  lemma SameIdsConcat(a: seq<Line>, b: seq<Line>, a': seq<Line>, b': seq<Line>)
    requires SameIds(a', a) && SameIds(b', b)
    ensures SameIds(a' + b', a + b)
  {
  }

  lemma {:induction false} FlatRotten(c: Chain, k: nat, i: nat)
    requires k < |c| && c[k].Some? && i < |c[k].value.lines|
    ensures SameIds(Flat(c[k := Some(RottenFile(c[k].value, i))]), Flat(c))
  {
    var f := Some(RottenFile(c[k].value, i));
    if k == 0 {
      assert c[0 := f][1..] == c[1..];
      SameIdsConcat(LinesOf(c[0]), Flat(c[1..]), LinesOf(f), Flat(c[1..]));
    } else {
      TailUpdate(c, k, f);
      FlatRotten(c[1..], k - 1, i);
      SameIdsConcat(LinesOf(c[0]), Flat(c[1..]), LinesOf(c[0]), Flat(c[1..][k - 1 := f]));
    }
  }

  lemma {:induction false} SizeRotten(lines: seq<Line>, i: nat)
    requires i < |lines|
    ensures Size(lines[i := Rotten(lines[i])]) == Size(lines)
  {
    if i == 0 {
      assert lines[0 := Rotten(lines[0])][1..] == lines[1..];
    } else {
      assert lines[i := Rotten(lines[i])][1..] == lines[1..][i - 1 := Rotten(lines[1..][i - 1])];
      SizeRotten(lines[1..], i - 1);
    }
  }

  lemma SameIdsKeeps(lines: seq<Line>, lines': seq<Line>, posts: Posts, s: State)
    requires SameIds(lines', lines)
    ensures Ascending(lines) <==> Ascending(lines')
    ensures Tracks(lines, posts, s) ==> Tracks(lines', posts, s)
    ensures AllBelow(lines, s.next) ==> AllBelow(lines', s.next)
  {
    assert forall i :: 0 <= i < |lines'| ==>
      lines'[i].Lost? == lines[i].Lost? && (!lines[i].Lost? ==> lines'[i].id == lines[i].id);
    if Tracks(lines, posts, s) {
      TracksThinned(lines, lines', posts, s);
    }
  }

  /** Rot loses no id, so storage stays in order if it was, whatever rots. */
  lemma StoredRotten(c: Chain, max: nat, cap: nat, posts: Posts, saved: State, k: nat, i: nat)
    requires Stored(c, max, cap, posts, saved) && k <= max && c[k].Some? && i < |c[k].value.lines|
    ensures var d := c[k := Some(RottenFile(c[k].value, i))];
      Stored(d, max, cap, posts, saved) && (Ascending(Flat(c)) <==> Ascending(Flat(d)))
  {
    hide Ascending, Tracks, Flat, AllBelow;
    var d := c[k := Some(RottenFile(c[k].value, i))];
    FlatRotten(c, k, i);
    SizeRotten(c[k].value.lines, i);
    SameIdsKeeps(Flat(c), Flat(d), posts, saved);
    if 2 <= max {
      var free :| 0 <= free < |c| && c[free].None?;
      assert d[free].None?;
    }
  }

  // ---------------------------------------------------------------- the bounds, exactly

  function EmptyPlaces(max: nat): Chain { seq(max + 1, i => None) }

  /** A spool that is only appended to, from an empty directory. */
  function Appends(max: nat, fileBytes: nat, lines: seq<Line>): (c: Chain)
    requires 1 <= max
    ensures |c| == max + 1
  {
    if lines == [] then EmptyPlaces(max)
    else Grown(Appends(max, fileBytes, lines[..|lines| - 1]), max, fileBytes, lines[|lines| - 1])
  }

  /** Records as `append` makes them: numbered from one, none above the record bound. */
  predicate Appendable(lines: seq<Line>) {
    forall i :: 0 <= i < |lines| ==>
      lines[i].Readable? && lines[i].id == i + 1 && lines[i].size <= RECORD_MAX_BYTES
  }

  lemma RotatedShaped(c: Chain, max: nat, cap: nat)
    requires Shaped(c, max, cap) && TailOf(c, max).Ended?
    ensures Shaped(Rotated(c), max, cap)
  {
    var r := Rotated(c);
    assert r[max].None?;
    if 2 <= max { assert r[0].None?; }
  }

  lemma GrownShaped(c: Chain, max: nat, fileBytes: nat, cap: nat, line: Line)
    requires 1 <= max && |c| == max + 1 && Shaped(c, max, cap) && TailOf(c, max).Ended?
    requires line.size <= RECORD_MAX_BYTES <= cap && fileBytes <= cap
    ensures Shaped(Grown(c, max, fileBytes, line), max, cap) && TailOf(Grown(c, max, fileBytes, line), max).Ended?
  {
    hide Shaped;
    RotatedShaped(c, max, cap);
    var room := MadeRoom(c, max, fileBytes, line.size);
    SizeAppend(CurrentLines(room, max), line);
    ShapedCurrent(room, max, cap, File(CurrentLines(room, max) + [line], Ended));
  }

  lemma {:induction false} AppendsShaped(max: nat, fileBytes: nat, lines: seq<Line>)
    requires 1 <= max && Appendable(lines)
    ensures Shaped(Appends(max, fileBytes, lines), max, Max(fileBytes, RECORD_MAX_BYTES))
    ensures TailOf(Appends(max, fileBytes, lines), max).Ended?
  {
    if lines == [] {
      assert EmptyPlaces(max)[0].None?;
    } else {
      var n := |lines| - 1;
      AppendsShaped(max, fileBytes, lines[..n]);
      GrownShaped(Appends(max, fileBytes, lines[..n]), max, fileBytes, Max(fileBytes, RECORD_MAX_BYTES), lines[n]);
    }
  }

  /** What a single-file budget makes of one more append. */
  lemma SingleFileGrows(fileBytes: nat, c: Chain, line: Line)
    requires |c| == 2 && c[1].Some? && TailOf(c, 1).Ended?
    ensures var d := Grown(c, 1, fileBytes, line);
      && d[1].Some? && TailOf(d, 1).Ended?
      && (FileBytes(c[1]) + line.size <= fileBytes ==> d == [c[0], Some(File(LinesOf(c[1]) + [line], Ended))])
      && (FileBytes(c[1]) + line.size > fileBytes || c[0].Some? ==> d[0].Some?)
  {
    hide FileBytes;
  }

  /** What a single-file budget makes of a run of appends. */
  lemma {:induction false} SingleFileChain(fileBytes: nat, lines: seq<Line>)
    requires lines != []
    ensures var c := Appends(1, fileBytes, lines);
      if |lines| == 1 || Size(lines) <= fileBytes then c == [None, Some(File(lines, Ended))]
      else c[0].Some? && c[1].Some? && TailOf(c, 1).Ended?
  {
    hide Grown, Size;
    var n := |lines| - 1;
    var before, last := lines[..n], lines[n];
    assert lines == before + [last];
    SizeAppend(before, last);
    if n == 0 {
      FirstAppend(1, fileBytes, last);
      assert EmptyPlaces(1)[1 := Some(File([last], Ended))] == [None, Some(File([last], Ended))];
    } else {
      SingleFileChain(fileBytes, before);
      SingleFileGrows(fileBytes, Appends(1, fileBytes, before), last);
    }
  }

  lemma SingleFileMembers(fileBytes: nat, lines: seq<Line>)
    ensures Members(Appends(1, fileBytes, lines)) <= 1 <==> |lines| <= 1 || Size(lines) <= fileBytes
  {
    var c := Appends(1, fileBytes, lines);
    if lines != [] { SingleFileChain(fileBytes, lines); }
    assert c == [c[0], c[1]] && c[1..] == [c[1]] && c[1..][1..] == [];
    assert Members([c[1]]) == if c[1].Some? then 1 else 0;
  }

  /** `n` records of one size. */
  function Alike(n: nat, size: Bytes): seq<Line> {
    seq(n, i requires 0 <= i < n => Readable(i + 1, 0, size))
  }

  lemma {:induction false} AlikeSize(n: nat, size: Bytes)
    ensures Size(Alike(n, size)) == n * size
  {
    if n > 0 {
      AlikeSize(n - 1, size);
      assert Alike(n, size) == Alike(n - 1, size) + [Readable(n, 0, size)];
      SizeAppend(Alike(n - 1, size), Readable(n, 0, size));
      assert n * size == (n - 1) * size + size;
    }
  }

  /** Enough records of any size do not fit into one file. */
  lemma EnoughAlike(fileBytes: nat, size: Bytes) returns (n: nat)
    ensures 2 <= n && fileBytes < Size(Alike(n, size))
    ensures size <= fileBytes ==> Size(Alike(n - 1, size)) <= fileBytes
  {
    var q := fileBytes / size;
    n := if q == 0 then 2 else q + 1;
    AlikeSize(n, size);
    AlikeSize(n - 1, size);
    assert q * size <= fileBytes < (q + 1) * size;
  }

  /** At most `max_files` members, whatever is appended: exactly if there are two files or more. */
  lemma MemberBoundExactly(max: nat, fileBytes: nat)
    requires 1 <= max
    ensures (forall lines :: Appendable(lines) ==> Members(Appends(max, fileBytes, lines)) <= max) <==> 2 <= max
  {
    if max == 1 {
      var n := EnoughAlike(fileBytes, RECORD_MAX_BYTES);
      SingleFileMembers(fileBytes, Alike(n, RECORD_MAX_BYTES));
      assert Appendable(Alike(n, RECORD_MAX_BYTES));
    } else {
      forall lines | Appendable(lines) ensures Members(Appends(max, fileBytes, lines)) <= max {
        AppendsShaped(max, fileBytes, lines);
        ChainIsBounded(Appends(max, fileBytes, lines), max, Max(fileBytes, RECORD_MAX_BYTES));
      }
    }
  }

  /** No record size is small enough for a single-file budget. */
  lemma SingleFileOverflows(fileBytes: nat, size: Bytes) returns (lines: seq<Line>)
    requires size <= RECORD_MAX_BYTES
    ensures Appendable(lines) && (forall l :: l in lines ==> l.size == size)
    ensures Members(Appends(1, fileBytes, lines)) == 2
  {
    var n := EnoughAlike(fileBytes, size);
    lines := Alike(n, size);
    SingleFileMembers(fileBytes, lines);
    MembersBound(Appends(1, fileBytes, lines));
  }

  /** At most `max_files * file_bytes` bytes, whatever is appended: exactly if also any record fits into a file. */
  lemma ByteBoundExactly(max: nat, fileBytes: nat)
    requires 1 <= max
    ensures (forall lines :: Appendable(lines) ==> ChainBytes(Appends(max, fileBytes, lines)) <= max * fileBytes) <==>
      2 <= max && RECORD_MAX_BYTES <= fileBytes
  {
    if fileBytes < RECORD_MAX_BYTES {
      assert Appendable(Alike(max, RECORD_MAX_BYTES));
      SmallFileBudgetOverflows(max, fileBytes, Alike(max, RECORD_MAX_BYTES));
    } else if max == 1 {
      var n := EnoughAlike(fileBytes, RECORD_MAX_BYTES);
      assert Appendable(Alike(n, RECORD_MAX_BYTES));
      assert Alike(n, RECORD_MAX_BYTES) == Alike(n - 1, RECORD_MAX_BYTES) + [Readable(n, 0, RECORD_MAX_BYTES)];
      SingleFileBytes(fileBytes, Alike(n - 1, RECORD_MAX_BYTES), Readable(n, 0, RECORD_MAX_BYTES));
    } else {
      forall lines | Appendable(lines) ensures ChainBytes(Appends(max, fileBytes, lines)) <= max * fileBytes {
        AppendsShaped(max, fileBytes, lines);
        ChainIsBounded(Appends(max, fileBytes, lines), max, fileBytes);
      }
    }
  }

  /** The record that does not fit into the only file is kept beside it. */
  lemma SingleFileBytes(fileBytes: nat, lines: seq<Line>, last: Line)
    requires lines != [] && Size(lines) <= fileBytes < Size(lines + [last])
    ensures ChainBytes(Appends(1, fileBytes, lines + [last])) == Size(lines + [last])
  {
    SingleFileChain(fileBytes, lines);
    SizeAppend(lines, last);
    OneLine(last);
    assert (lines + [last])[..|lines|] == lines;
    var c, d := Appends(1, fileBytes, lines), Appends(1, fileBytes, lines + [last]);
    OutgrowsCurrent(c, 1, fileBytes, last);
    assert d == [Some(File(lines, Ended)), Some(File([last], Ended))];
    assert d[1..] == [d[1]] && d[1..][1..] == [] && ChainBytes([d[1]]) == last.size;
  }

  lemma FirstAppend(max: nat, fileBytes: nat, line: Line)
    requires 1 <= max
    ensures Appends(max, fileBytes, [line]) == EmptyPlaces(max)[max := Some(File([line], Ended))]
  {
    var c := EmptyPlaces(max);
    assert [line][..0] == [] && MadeRoom(c, max, fileBytes, line.size) == c;
    assert CurrentLines(c, max) + [line] == [line];
  }

  /** A record that does not fit gets a file of its own in a rotated chain. */
  lemma OutgrowsCurrent(c: Chain, max: nat, fileBytes: nat, line: Line)
    requires |c| == max + 1 && 1 <= max && c[max].Some? && FileBytes(c[max]) + line.size > fileBytes
    requires TailOf(c, max).Ended?
    ensures Grown(c, max, fileBytes, line) == Rotated(c)[max := Some(File([line], Ended))]
  {
    assert Rotated(c)[max].None?;
    assert CurrentLines(Rotated(c), max) + [line] == [line];
  }

  lemma OneLine(line: Line)
    ensures FileBytes(Some(File([line], Ended))) == line.size
  {
    assert [line][1..] == [] && Size([line]) == line.size;
  }

  /** The newest records one to a file, the places before them free. */
  function OneEach(max: nat, lines: seq<Line>): Chain
    requires |lines| <= max
  {
    seq(max + 1, i requires 0 <= i < max + 1 =>
      if i + |lines| <= max then None else Some(File([lines[i + |lines| - max - 1]], Ended)))
  }

  lemma AppendsOneMore(max: nat, fileBytes: nat, lines: seq<Line>)
    requires 1 <= max && lines != []
    ensures var n := |lines| - 1;
      Appends(max, fileBytes, lines) == Grown(Appends(max, fileBytes, lines[..n]), max, fileBytes, lines[n])
  {
  }

  /** Records that outgrow a file each get one of their own. */
  lemma {:induction false} EachOutgrowsItsFile(max: nat, fileBytes: nat, lines: seq<Line>)
    requires 1 <= |lines| <= max && forall l :: l in lines ==> fileBytes < l.size
    ensures Appends(max, fileBytes, lines) == OneEach(max, lines)
  {
    hide Appends, Grown, Rotated, FileBytes;
    var n := |lines| - 1;
    var before, last := lines[..n], lines[n];
    if n == 0 {
      assert lines == [last];
      FirstAppend(max, fileBytes, last);
    } else {
      EachOutgrowsItsFile(max, fileBytes, before);
      AppendsOneMore(max, fileBytes, lines);
      var c := OneEach(max, before);
      assert c[max] == Some(File([before[n - 1]], Ended)) && before[n - 1] in lines;
      OneLine(before[n - 1]);
      OutgrowsCurrent(c, max, fileBytes, last);
      OneMore(max, before, last);
      assert lines == before + [last];
    }
  }

  lemma OneMore(max: nat, before: seq<Line>, last: Line)
    requires 1 <= |before| < max
    ensures OneEach(max, before + [last]) == Rotated(OneEach(max, before))[max := Some(File([last], Ended))]
  {
    var c, lines := OneEach(max, before), before + [last];
    var d, e := OneEach(max, lines), Rotated(c)[max := Some(File([last], Ended))];
    forall i | 0 <= i <= max ensures d[i] == e[i] {
      if 1 <= i < max { assert e[i] == c[i + 1]; }
    }
  }

  lemma OneTimesMore(n: nat, each: nat)
    ensures (n + 1) * each == n * each + each
  {
  }

  lemma {:induction false} BytesOfFiles(c: Chain, each: nat)
    requires forall k :: 0 <= k < |c| ==> c[k].Some? && each < FileBytes(c[k])
    ensures |c| * each + |c| <= ChainBytes(c)
  {
    hide FileBytes;
    if c != [] {
      BytesOfFiles(c[1..], each);
      OneTimesMore(|c[1..]|, each);
    }
  }

  /** With files smaller than a record the byte bound fails: as many such records as there are files overflow them. */
  lemma SmallFileBudgetOverflows(max: nat, fileBytes: nat, lines: seq<Line>)
    requires 1 <= max == |lines| && forall l :: l in lines ==> fileBytes < l.size
    ensures max * fileBytes < ChainBytes(Appends(max, fileBytes, lines))
  {
    EachOutgrowsItsFile(max, fileBytes, lines);
    var c := OneEach(max, lines);
    assert c[0].None? && |c[1..]| == max;
    forall k | 0 <= k < max ensures c[1..][k].Some? && fileBytes < FileBytes(c[1..][k]) {
      assert c[1..][k] == c[k + 1] == Some(File([lines[k]], Ended)) && lines[k] in lines;
      OneLine(lines[k]);
    }
    BytesOfFiles(c[1..], fileBytes);
  }

  // ---------------------------------------------------------------- what a repeated id does to the order

  /** The newest file survives the room made for one more line. */
  lemma NewestIsKept(c: Chain, max: nat, fileBytes: nat, size: nat, line: Line)
    requires |c| == max + 1 && 1 <= max && line in LinesOf(c[max]) && !TailOf(c, max).Part?
    ensures line in Flat(MadeRoom(c, max, fileBytes, size))
  {
    hide Flat, FileBytes;
    var room := MadeRoom(c, max, fileBytes, size);
    if room == c { FlatHas(c, max, line); } else { FlatHas(room, max - 1, line); }
  }

  lemma {:induction false} FlatEndsEmpty(c: Chain)
    ensures Flat(c + [None]) == Flat(c)
  {
    if c == [] {
      FlatOne(None);
      assert c + [None] == [None];
    } else {
      assert (c + [None])[1..] == c[1..] + [None];
      FlatEndsEmpty(c[1..]);
    }
  }

  lemma SuffixOfThree(x: seq<Line>, y: seq<Line>, z: seq<Line>)
    ensures IsSuffix(z, x + (y + z))
  {
    assert (x + (y + z))[|x| + |y|..] == z;
  }

  lemma RotatedLines(c: Chain)
    requires 2 <= |c|
    ensures Flat(Rotated(c)) == Flat(if |c| == 2 then [c[1]] else c[2..])
  {
    hide Flat;
    var left := if |c| == 2 then [c[1]] else c[2..];
    if |c| == 2 {
      assert Rotated(c) == left + [None];
    } else {
      assert Rotated(c)[1..] == left + [None];
      FlatStep(Rotated(c));
    }
    FlatEndsEmpty(left);
  }

  lemma RoomKeepsSuffix(c: Chain, max: nat, fileBytes: nat, size: nat)
    requires |c| == max + 1 && 1 <= max && !TailOf(c, max).Part?
    ensures IsSuffix(Flat(MadeRoom(c, max, fileBytes, size)), Flat(c))
  {
    hide Flat, FileBytes, Rotated, IsSuffix;
    RotatedLines(c);
    FlatStep(c);
    FlatStep(c[1..]);
    if max == 1 {
      assert c[1..] == [c[1]];
      SuffixOfThree(LinesOf(c[0]), [], Flat(c[1..]));
      assert [] + Flat(c[1..]) == Flat(c[1..]);
    } else {
      assert c[1..][1..] == c[2..];
      SuffixOfThree(LinesOf(c[0]), LinesOf(c[1]), Flat(c[2..]));
    }
    SuffixOfThree([], [], Flat(c));
    assert [] + ([] + Flat(c)) == Flat(c);
  }

  lemma FlatWritten(c: Chain, max: nat, line: Line)
    requires |c| == max + 1 && TailOf(c, max).Ended?
    ensures Flat(Written(c, max, line)) == Flat(c) + [line]
  {
    FlatAppend(c, File(CurrentLines(c, max) + [line], Ended), line);
  }

  /**
    A line has no newline before it: what the current file ends in is run into, unless it is
    whole and room is made by a rotation.
    */
  predicate RunsInto(c: Chain, max: nat, fileBytes: nat, size: nat)
    requires |c| == max + 1 && 1 <= max
  {
    TailOf(c, max).Part? || !TailOf(MadeRoom(c, max, fileBytes, size), max).Ended?
  }

  /** What is run into ends up as a line without an id. */
  lemma RunIntoIsLost(c: Chain, max: nat, fileBytes: nat, line: Line)
    requires |c| == max + 1 && 1 <= max && RunsInto(c, max, fileBytes, line.size)
    ensures !Ascending(Flat(Grown(c, max, fileBytes, line)))
  {
    hide Flat, FileBytes;
    var room, d := MadeRoom(c, max, fileBytes, line.size), Grown(c, max, fileBytes, line);
    var k := if room == c then max else max - 1;
    var lines := LinesOf(d[k]);
    assert lines[|lines| - 1].Lost?;
    FlatHas(d, k, lines[|lines| - 1]);
  }

  /**
    An append to a chain in order leaves it in order exactly if it runs into nothing and no
    line left after making room has its id, or a higher one.
    */
  lemma AppendKeepsOrder(c: Chain, max: nat, fileBytes: nat, line: Line)
    requires |c| == max + 1 && 1 <= max && Ascending(Flat(c)) && line.Readable? && 0 < line.id
    ensures var kept := Flat(MadeRoom(c, max, fileBytes, line.size));
      Ascending(Flat(Grown(c, max, fileBytes, line))) <==>
        !RunsInto(c, max, fileBytes, line.size) && AllBelow(kept, line.id)
  {
    hide Flat, FileBytes, MadeRoom;
    if RunsInto(c, max, fileBytes, line.size) {
      RunIntoIsLost(c, max, fileBytes, line);
    } else {
      var room := MadeRoom(c, max, fileBytes, line.size);
      RoomKeepsSuffix(c, max, fileBytes, line.size);
      FlatWritten(room, max, line);
      SuffixAscends(Flat(room), Flat(c));
      AppendedInOrder(Flat(room), line);
    }
  }

  /** After a newline there is nothing to run into. */
  lemma RoomIsWhole(c: Chain, max: nat, fileBytes: nat, size: nat)
    requires |c| == max + 1 && 1 <= max && TailOf(c, max).Ended?
    ensures !RunsInto(c, max, fileBytes, size)
  {
  }

  /** A failed write at the end of a chain in order, after a newline, leaves it in order. */
  lemma LeftInOrder(c: Chain, d: Chain, max: nat, line: Line)
    requires |c| == max + 1 && Ascending(Flat(c)) && TailOf(c, max).Ended? && LeftBy(c, d, max, line)
    requires line.Readable? && 0 < line.id && AllBelow(Flat(c), line.id)
    ensures Ascending(Flat(d))
  {
    hide Flat, Ascending, AllBelow;
    AppendedInOrder(Flat(c), line);
    if d != c {
      if d == Written(c, max, line) {
        FlatWritten(c, max, line);
      } else {
        var more :| 0 < more < line.size && d == Ending(c, max, Begun(TailOf(c, max), line, more));
        FlatEnding(c, max, Begun(TailOf(c, max), line, more));
      }
    }
  }

  /** With every id below the next one no unended line waits for its newline under that. */
  lemma NothingWaits(c: Chain, max: nat, next: nat)
    requires |c| == max + 1 && AllBelow(Flat(c), next)
    requires TailOf(c, max).Unended? ==> TailOf(c, max).line.Readable? && next <= TailOf(c, max).line.id
    ensures !TailOf(c, max).Unended?
  {
    if TailOf(c, max).Unended? { FlatLast(c); }
  }

  lemma AppendedInOrder(lines: seq<Line>, line: Line)
    requires Ascending(lines) && line.Readable? && 0 < line.id
    ensures Ascending(lines + [line]) <==> AllBelow(lines, line.id)
  {
    var more := lines + [line];
    assert more[|lines|] == line && forall i :: 0 <= i < |lines| ==> more[i] == lines[i];
  }

  lemma GrownIsWhole(c: Chain, max: nat, fileBytes: nat, line: Line)
    requires |c| == max + 1 && 1 <= max
    ensures TailOf(Grown(c, max, fileBytes, line), max).Ended?
  {
  }

  /**
    The input that breaks the order: the whole line of a failed append stays on disk, and the
    next append in the same process takes its id again.
    */
  lemma RetryBreaksOrder(c: Chain, max: nat, fileBytes: nat, left: Line, retried: Line)
    requires |c| == max + 1 && 1 <= max && Ascending(Flat(c)) && TailOf(c, max).Ended?
    requires left.Readable? && retried.Readable? && 0 < left.id == retried.id && AllBelow(Flat(c), left.id)
    ensures var d := Grown(c, max, fileBytes, left);
      Ascending(Flat(d)) && !Ascending(Flat(Grown(d, max, fileBytes, retried)))
  {
    hide Flat, FileBytes, MadeRoom, Ascending, IsSuffix;
    var d := Grown(c, max, fileBytes, left);
    RoomKeepsSuffix(c, max, fileBytes, left.size);
    SuffixBelow(Flat(MadeRoom(c, max, fileBytes, left.size)), Flat(c), left.id);
    RoomIsWhole(c, max, fileBytes, left.size);
    AppendKeepsOrder(c, max, fileBytes, left);
    GrownEndsWith(c, max, fileBytes, left);
    NewestIsKept(d, max, fileBytes, retried.size, left);
    AppendKeepsOrder(d, max, fileBytes, retried);
  }

  /**
    The input that puts a fresh record at the cursor: the line of a failed append is delivered
    and compacted away with all before it, a reopen finds nothing and starts from the saved
    next id, and the next append takes the id the cursor has already reached. Ids ascend, yet
    the record is never delivered.
    */
  lemma DeliveredLeftoverBuriesNext(c: Chain, max: nat, fileBytes: nat, cursor: nat, left: Line, emptied: Chain,
                                    added: Line)
    requires |c| == max + 1 && 1 <= max && Ascending(Flat(c)) && TailOf(c, max).Ended?
    requires left.Readable? && added.Readable? && cursor < left.id == added.id && AllBelow(Flat(c), left.id)
    requires forall l :: l in Flat(c) && l.Corrupt? ==> l.id <= cursor
    requires |emptied| == max + 1 && TailOf(emptied, max).Ended? && Flat(emptied) == []
    ensures var d, n := Grown(c, max, fileBytes, left), left.id;
      && left in Deliverable(Flat(d), cursor) && Unresolved(Flat(d), n) == Flat(emptied)
      && Advanced(State(n, n, []), Flat(emptied)).next == n
    ensures var e := Grown(emptied, max, fileBytes, added);
      Flat(e) == [added] && Ascending(Flat(e)) && Deliverable(Flat(e), left.id) == []
  {
    hide Flat, FileBytes, MadeRoom, IsSuffix, AllBelow, Ascending, Deliverable, Unresolved;
    var d, room := Grown(c, max, fileBytes, left), MadeRoom(c, max, fileBytes, left.size);
    RoomKeepsSuffix(c, max, fileBytes, left.size);
    RoomIsWhole(c, max, fileBytes, left.size);
    SuffixBelow(Flat(room), Flat(c), left.id);
    SuffixIsWithin(Flat(room), Flat(c));
    SuffixAscends(Flat(room), Flat(c));
    AppendKeepsOrder(c, max, fileBytes, left);
    FlatWritten(room, max, left);
    DeliverableComplete(Flat(d), cursor, left);
    AllKnownBelow(Flat(room), left.id);
    NothingAbove(Flat(d), left.id);
    OnlyLine(emptied, max, fileBytes, added);
  }

  lemma {:induction false} NothingAbove(lines: seq<Line>, cursor: nat)
    requires forall l :: l in lines ==> !l.Lost? && l.id <= cursor
    ensures Unresolved(lines, cursor) == []
  {
    if lines != [] {
      assert lines[0] in lines;
      NothingAbove(lines[1..], cursor);
    }
  }

  lemma AllKnownBelow(lines: seq<Line>, next: nat)
    requires Ascending(lines) && AllBelow(lines, next)
    ensures forall l :: l in lines ==> !l.Lost? && l.id < next
  {
  }

  /** What is appended to a chain without lines is its only line. */
  lemma OnlyLine(c: Chain, max: nat, fileBytes: nat, line: Line)
    requires |c| == max + 1 && 1 <= max && TailOf(c, max).Ended? && Flat(c) == [] && line.Readable? && 0 < line.id
    ensures var e := Flat(Grown(c, max, fileBytes, line)); e == [line] && Ascending(e) && Deliverable(e, line.id) == []
  {
    hide Flat, FileBytes, MadeRoom;
    RoomKeepsSuffix(c, max, fileBytes, line.size);
    RoomIsWhole(c, max, fileBytes, line.size);
    FlatWritten(MadeRoom(c, max, fileBytes, line.size), max, line);
    assert [line][1..] == [];
  }

  lemma GrownEndsWith(c: Chain, max: nat, fileBytes: nat, line: Line)
    requires |c| == max + 1 && 1 <= max && TailOf(c, max).Ended?
    ensures var d := Grown(c, max, fileBytes, line); TailOf(d, max).Ended? && line in LinesOf(d[max])
  {
    hide MadeRoom;
    RoomIsWhole(c, max, fileBytes, line.size);
  }

  lemma {:induction false} FlatLast(c: Chain)
    requires c != [] && LinesOf(c[|c| - 1]) != []
    ensures Flat(c) != [] && Flat(c)[|Flat(c)| - 1] == LinesOf(c[|c| - 1])[|LinesOf(c[|c| - 1])| - 1]
  {
    hide Flat, LinesOf;
    if |c| == 1 {
      assert c == [c[0]];
      FlatOne(c[0]);
    } else {
      FlatStep(c);
      FlatLast(c[1..]);
    }
  }

  /** If any record fits into a file, making room does not drop the newest line. */
  lemma LeftoverStays(c: Chain, max: nat, fileBytes: nat, size: Bytes, id: nat)
    requires |c| == max + 1 && 1 <= max && Ascending(Flat(c)) && AllBelow(Flat(c), id + 1) && !TailOf(c, max).Part?
    requires size <= fileBytes
    ensures AllBelow(Flat(MadeRoom(c, max, fileBytes, size)), id) <==> AllBelow(Flat(c), id)
  {
    hide Flat, FileBytes, Rotated, IsSuffix;
    var lines, room := Flat(c), MadeRoom(c, max, fileBytes, size);
    RoomKeepsSuffix(c, max, fileBytes, size);
    SuffixAscends(Flat(room), lines);
    assert forall i :: 0 <= i < |Flat(room)| ==> Flat(room)[i] in lines;
    if room != c && !AllBelow(lines, id) {
      CurrentHasLines(c, max, fileBytes, size);
      FlatLast(c);
      var newest := LinesOf(c[max])[|LinesOf(c[max])| - 1];
      NewestIsKept(c, max, fileBytes, size, newest);
      HighestIsLast(lines, id);
      var k :| 0 <= k < |Flat(room)| && Flat(room)[k] == newest;
    }
  }

  lemma CurrentHasLines(c: Chain, max: nat, fileBytes: nat, size: nat)
    requires |c| == max + 1 && 1 <= max && !TailOf(c, max).Part? && size <= fileBytes
    requires MadeRoom(c, max, fileBytes, size) != c
    ensures LinesOf(c[max]) != []
  {
  }

  lemma HighestIsLast(lines: seq<Line>, id: nat)
    requires Ascending(lines) && AllBelow(lines, id + 1) && !AllBelow(lines, id)
    ensures lines != [] && lines[|lines| - 1].id == id
  {
    var i :| 0 <= i < |lines| && !lines[i].Lost? && lines[i].id >= id;
    assert forall j :: i <= j < |lines| ==> lines[i].id <= lines[j].id;
  }
}
