/**
  The record chain of the office-side spool (monitor-v2/remote_probe/spool.py) as
  values: rotated files oldest first, then the current file. Position `max - i`
  holds the file named with suffix `.i`; the last position is the current file.
  */
module SpoolChain {
  import opened Prelude

  /** The length of a complete line, which ends in a newline. */
  type Bytes = n: nat | 0 < n witness 1

  /** A complete line: a record, one whose payload is unusable but whose id is not, or one without a trustworthy id. */
  datatype Line =
    | Readable(id: nat, epoch: int, size: Bytes)
    | Corrupt(id: nat, size: Bytes)
    | Lost(size: Bytes)

  /**
    What follows the last complete line: nothing, a part of a line that says nothing, or a
    line that lacks only its newline, which a scan reads like any other.
    */
  datatype Tail = Ended | Part(bytes: Bytes) | Unended(line: Line)

  /** A file: its complete lines, and what it ends in. */
  datatype File = File(lines: seq<Line>, tail: Tail)

  type Chain = seq<Option<File>>

  /** What a scan of a file reads, but for a part of a line. */
  function LinesOf(f: Option<File>): seq<Line> {
    if f.None? then []
    else if f.value.tail.Unended? then f.value.lines + [f.value.tail.line]
    else f.value.lines
  }

  /** All lines in chain order. */
  function Flat(c: Chain): seq<Line> {
    if c == [] then [] else LinesOf(c[0]) + Flat(c[1..])
  }

  function Size(lines: seq<Line>): nat {
    if lines == [] then 0 else lines[0].size + Size(lines[1..])
  }

  function TailBytes(t: Tail): nat {
    match t
    case Ended => 0
    case Part(bytes) => bytes
    case Unended(line) => line.size - 1
  }

  function FileBytes(f: Option<File>): nat {
    if f.Some? then Size(f.value.lines) + TailBytes(f.value.tail) else 0
  }

  /** The bytes of a file with the newline it may lack. */
  function FullBytes(f: Option<File>): nat {
    if f.None? then 0 else Size(f.value.lines) + if f.value.tail.Unended? then f.value.tail.line.size
                                                 else TailBytes(f.value.tail)
  }

  function ChainBytes(c: Chain): nat {
    if c == [] then 0 else FileBytes(c[0]) + ChainBytes(c[1..])
  }

  function Members(c: Chain): nat {
    if c == [] then 0 else (if c[0].Some? then 1 else 0) + Members(c[1..])
  }

  /** Every id is known and they strictly increase: what the startup scan insists on. */
  predicate Ascending(lines: seq<Line>) {
    && (forall i :: 0 <= i < |lines| ==> !lines[i].Lost? && 0 < lines[i].id)
    && (forall i, j :: 0 <= i < j < |lines| ==> lines[i].id < lines[j].id)
  }

  predicate IsSuffix(a: seq<Line>, b: seq<Line>) {
    |a| <= |b| && a == b[|b| - |a|..]
  }

  /** One place is free, and the oldest one is whenever there is no current file. */
  predicate HasRoom(c: Chain) {
    && (exists k :: 0 <= k < |c| && c[k].None?)
    && (c != [] && c[|c| - 1].None? ==> c[0].None?)
  }

  /**
    The shape every crash leaves: a fixed number of places, one of them free if there are
    more than two, no file above the cap, and a part of a line in the current file only.
    */
  predicate Shaped(c: Chain, max: nat, cap: nat) {
    && 1 <= max && |c| == max + 1
    && (2 <= max ==> HasRoom(c))
    && (forall k :: 0 <= k < |c| ==> FullBytes(c[k]) <= cap)
    && (forall k :: 0 <= k < max && c[k].Some? ==> !c[k].value.tail.Part?)
  }

  /** The rename of one rotation step: the file at `j` takes the place before it. */
  function Shift(c: Chain, j: nat): Chain
    requires 0 < j < |c|
  {
    c[j - 1 := c[j]][j := None]
  }

  // ---------------------------------------------------------------- flattening

  lemma TailUpdate(c: Chain, k: nat, f: Option<File>)
    requires 0 < k < |c|
    ensures c[k := f][0] == c[0] && c[k := f][1..] == c[1..][k - 1 := f]
  {
  }

  /** Changing one file to another with the same lines changes nothing in the flat view. */
  lemma {:induction false} FlatSame(c: Chain, k: nat, f: Option<File>)
    requires k < |c| && LinesOf(f) == LinesOf(c[k])
    ensures Flat(c[k := f]) == Flat(c)
  {
    if k == 0 {
      assert c[0 := f][1..] == c[1..];
    } else {
      TailUpdate(c, k, f);
      FlatSame(c[1..], k - 1, f);
    }
  }

  lemma FlatOne(f: Option<File>)
    ensures Flat([f]) == LinesOf(f)
  {
    assert [f][1..] == [];
  }

  lemma FlatStep(c: Chain)
    requires c != []
    ensures Flat(c) == LinesOf(c[0]) + Flat(c[1..])
  {
  }

  /** A line at the end of the current file is the last line of the chain. */
  lemma {:induction false} FlatAppend(c: Chain, f: File, line: Line)
    requires c != [] && LinesOf(Some(f)) == LinesOf(c[|c| - 1]) + [line]
    ensures Flat(c[|c| - 1 := Some(f)]) == Flat(c) + [line]
  {
    hide Flat;
    var k := |c| - 1;
    var d := c[k := Some(f)];
    if k == 0 {
      assert c == [c[0]] && d == [Some(f)];
      FlatOne(c[0]);
      FlatOne(Some(f));
    } else {
      FlatStep(c);
      FlatStep(d);
      TailUpdate(c, k, Some(f));
      FlatAppend(c[1..], f, line);
      Assoc(LinesOf(c[0]), Flat(c[1..]), [line]);
    }
  }

  /** Renaming into a free place moves no line. */
  lemma {:induction false} ShiftIntoFree(c: Chain, j: nat)
    requires 0 < j < |c| && c[j - 1].None?
    ensures Flat(Shift(c, j)) == Flat(c)
  {
    var d := Shift(c, j);
    if j == 1 {
      assert d[1..][1..] == c[1..][1..];
      assert d[1..][0].None? && c[1..][0] == d[0];
    } else {
      assert d[1..] == Shift(c[1..], j - 1);
      ShiftIntoFree(c[1..], j - 1);
    }
  }

  /** Renaming over the oldest file is unlinking it and renaming into the free place. */
  lemma ShiftOverOldest(c: Chain)
    requires 2 <= |c|
    ensures Shift(c[0 := None], 1) == Shift(c, 1)
  {
  }

  lemma UnlinkOldest(c: Chain)
    requires c != []
    ensures Flat(c) == LinesOf(c[0]) + Flat(c[0 := None])
  {
    assert c[0 := None][1..] == c[1..];
  }

  lemma SuffixTransitive(a: seq<Line>, b: seq<Line>, c: seq<Line>)
    requires IsSuffix(a, b) && IsSuffix(b, c)
    ensures IsSuffix(a, c)
  {
    assert b[|b| - |a|..] == c[|c| - |b|..][|b| - |a|..] == c[|c| - |a|..];
  }

  lemma SuffixAscends(a: seq<Line>, b: seq<Line>)
    requires IsSuffix(a, b) && Ascending(b)
    ensures Ascending(a)
    ensures forall i :: 0 <= i < |a| ==> a[i] in b
  {
    var d := |b| - |a|;
    assert forall i :: 0 <= i < |a| ==> a[i] == b[i + d];
  }

  // ---------------------------------------------------------------- bounds

  lemma {:induction false} MembersBound(c: Chain)
    ensures Members(c) <= |c|
    ensures (exists k :: 0 <= k < |c| && c[k].None?) ==> Members(c) < |c|
  {
    if c != [] {
      MembersBound(c[1..]);
      if k :| 0 <= k < |c| && c[k].None? {
        if k > 0 { assert c[1..][k - 1].None?; }
      }
    }
  }

  lemma {:induction false} BytesBound(c: Chain, fileBytes: nat)
    requires forall k :: 0 <= k < |c| ==> FileBytes(c[k]) <= fileBytes
    ensures ChainBytes(c) <= Members(c) * fileBytes
  {
    if c != [] {
      BytesBound(c[1..], fileBytes);
      var rest := Members(c[1..]);
      assert (1 + rest) * fileBytes == fileBytes + rest * fileBytes;
    }
  }

  /** With two files or more the chain never has more than `max` members nor more than `max` times the cap in bytes. */
  lemma ChainIsBounded(c: Chain, max: nat, cap: nat)
    requires Shaped(c, max, cap) && 2 <= max
    ensures Members(c) <= max
    ensures ChainBytes(c) <= max * cap
  {
    MembersBound(c);
    BytesBound(c, cap);
    MultiplyMonotone(Members(c), max, cap);
  }

  lemma MultiplyMonotone(a: nat, b: nat, k: nat)
    requires a <= b
    ensures a * k <= b * k
  {
    assert b * k == a * k + (b - a) * k;
  }

  const MAX_FILES := 4
  const MAX_BODY_BYTES := 16 * 1024
  const RECORD_MAX_BYTES := MAX_BODY_BYTES * 2
  const MAX_TOTAL_BYTES := 32 * 1024 * 1024
  const FILE_BYTES := MAX_TOTAL_BYTES / MAX_FILES - MAX_BODY_BYTES * 2

  /** With the shipped constants every crash point is under 32 MiB. */
  lemma ShippedBound(c: Chain)
    requires Shaped(c, MAX_FILES, FILE_BYTES)
    ensures Members(c) <= 4 && ChainBytes(c) < 33_554_432
  {
    ChainIsBounded(c, MAX_FILES, FILE_BYTES);
  }

  lemma {:induction false} SizeConcat(a: seq<Line>, b: seq<Line>)
    ensures Size(a + b) == Size(a) + Size(b)
  {
    if a == [] {
      assert a + b == b;
    } else {
      assert (a + b)[1..] == a[1..] + b;
      SizeConcat(a[1..], b);
    }
  }

  lemma SizeAppend(lines: seq<Line>, line: Line)
    ensures Size(lines + [line]) == Size(lines) + line.size
  {
    SizeConcat(lines, [line]);
    assert Size([line]) == line.size by { assert [line][1..] == []; }
  }

  // ---------------------------------------------------------------- compaction

  /** What compaction keeps of some lines: exactly those above the cursor. */
  function Unresolved(lines: seq<Line>, cursor: nat): (r: seq<Line>)
    ensures |r| <= |lines|
  {
    if lines == [] then []
    else (if lines[0].Lost? || lines[0].id > cursor then [lines[0]] else []) + Unresolved(lines[1..], cursor)
  }

  lemma {:induction false} UnresolvedConcat(a: seq<Line>, b: seq<Line>, cursor: nat)
    ensures Unresolved(a + b, cursor) == Unresolved(a, cursor) + Unresolved(b, cursor)
  {
    if a == [] {
      assert a + b == b;
    } else {
      assert (a + b)[1..] == a[1..] + b;
      UnresolvedConcat(a[1..], b, cursor);
      Assoc(if a[0].Lost? || a[0].id > cursor then [a[0]] else [], Unresolved(a[1..], cursor), Unresolved(b, cursor));
    }
  }

  lemma {:induction false} UnresolvedMembers(lines: seq<Line>, cursor: nat)
    ensures forall l :: l in Unresolved(lines, cursor) <==> l in lines && (l.Lost? || l.id > cursor)
    ensures Size(Unresolved(lines, cursor)) <= Size(lines)
  {
    if lines != [] {
      UnresolvedMembers(lines[1..], cursor);
      assert forall l :: l in lines <==> l == lines[0] || l in lines[1..];
      SizeConcat(if lines[0].Lost? || lines[0].id > cursor then [lines[0]] else [], Unresolved(lines[1..], cursor));
      assert Size([lines[0]]) == lines[0].size by { assert [lines[0]][1..] == []; }
    }
  }

  lemma {:induction false} UnresolvedTwice(lines: seq<Line>, cursor: nat)
    ensures Unresolved(Unresolved(lines, cursor), cursor) == Unresolved(lines, cursor)
  {
    if lines != [] {
      UnresolvedTwice(lines[1..], cursor);
      var kept := Unresolved(lines[1..], cursor);
      if lines[0].Lost? || lines[0].id > cursor {
        assert ([lines[0]] + kept)[1..] == kept;
      } else {
        assert [] + kept == kept;
      }
    }
  }

  /** On ascending lines the cursor cuts a prefix, so what is kept is a suffix. */
  lemma {:induction false} UnresolvedIsSuffix(lines: seq<Line>, cursor: nat)
    requires Ascending(lines)
    ensures IsSuffix(Unresolved(lines, cursor), lines)
  {
    if lines != [] {
      UnresolvedIsSuffix(lines[1..], cursor);
      if lines[0].id > cursor {
        AllAbove(lines, cursor);
      } else {
        var r := Unresolved(lines[1..], cursor);
        assert [] + r == r;
        assert lines[1..][|lines| - 1 - |r|..] == lines[|lines| - |r|..];
      }
    }
  }

  lemma {:induction false} AllAbove(lines: seq<Line>, cursor: nat)
    requires Ascending(lines) && forall i :: 0 <= i < |lines| ==> lines[i].id > cursor
    ensures Unresolved(lines, cursor) == lines
  {
    if lines != [] { AllAbove(lines[1..], cursor); }
  }

  /** Two stretches of lines in sequence ascend exactly if each does and the first stays below the second. */
  lemma AscendingConcat(a: seq<Line>, b: seq<Line>)
    ensures Ascending(a + b) <==>
      Ascending(a) && Ascending(b) && forall x, y :: x in a && y in b ==> x.id < y.id
  {
    if Ascending(a + b) {
      forall i | 0 <= i < |a| ensures (a + b)[i] == a[i] {}
      forall j | 0 <= j < |b| ensures (a + b)[|a| + j] == b[j] {}
      forall x, y | x in a && y in b ensures x.id < y.id {
        var i :| 0 <= i < |a| && a[i] == x;
        var j :| 0 <= j < |b| && b[j] == y;
        assert (a + b)[i].id < (a + b)[|a| + j].id;
      }
    }
  }

  /** The file compaction leaves in a place: nothing if it is a rotated file with no line left. */
  function Compacted(f: Option<File>, isCurrent: bool, cursor: nat): Option<File> {
    if f.None? then None
    else
      var keep := Unresolved(LinesOf(f), cursor);
      if keep == [] && !isCurrent then None else Some(File(keep, Ended))
  }

  predicate Within(a: seq<Line>, b: seq<Line>) {
    forall l :: l in a ==> l in b
  }

  lemma Thinned(a: seq<Line>, b: seq<Line>, a': seq<Line>, b': seq<Line>)
    requires Within(a', a) && Within(b', b)
    ensures Within(a' + b', a + b)
    ensures Ascending(a + b) && Ascending(a') && Ascending(b') ==> Ascending(a' + b')
  {
    AscendingConcat(a, b);
    AscendingConcat(a', b');
  }

  lemma CompactedFile(f: Option<File>, isCurrent: bool, cursor: nat)
    ensures Within(LinesOf(Compacted(f, isCurrent, cursor)), LinesOf(f))
    ensures Ascending(LinesOf(f)) ==> Ascending(LinesOf(Compacted(f, isCurrent, cursor)))
  {
    UnresolvedMembers(LinesOf(f), cursor);
    if Ascending(LinesOf(f)) {
      UnresolvedIsSuffix(LinesOf(f), cursor);
      SuffixAscends(LinesOf(Compacted(f, isCurrent, cursor)), LinesOf(f));
    }
  }

  /** Compacting one file thins the chain and keeps its order. */
  lemma {:induction false} CompactPlace(c: Chain, k: nat, isCurrent: bool, cursor: nat)
    requires k < |c|
    ensures var d := c[k := Compacted(c[k], isCurrent, cursor)];
      Within(Flat(d), Flat(c)) && (Ascending(Flat(c)) ==> Ascending(Flat(d)))
  {
    hide Compacted, Ascending;
    var f := Compacted(c[k], isCurrent, cursor);
    var first, rest := LinesOf(c[0]), Flat(c[1..]);
    AscendingConcat(first, rest);
    if k == 0 {
      assert c[0 := f][1..] == c[1..];
      CompactedFile(c[0], isCurrent, cursor);
      Thinned(first, rest, LinesOf(f), rest);
    } else {
      TailUpdate(c, k, f);
      CompactPlace(c[1..], k - 1, isCurrent, cursor);
      Thinned(first, rest, first, Flat(c[1..][k - 1 := f]));
    }
  }

  /** Compacting one file loses no line above the cursor. */
  lemma {:induction false} CompactKeeps(c: Chain, k: nat, isCurrent: bool, cursor: nat)
    requires k < |c|
    ensures Unresolved(Flat(c[k := Compacted(c[k], isCurrent, cursor)]), cursor) == Unresolved(Flat(c), cursor)
  {
    hide Flat, Compacted, Unresolved;
    var f := Compacted(c[k], isCurrent, cursor);
    var d := c[k := f];
    FlatStep(c);
    FlatStep(d);
    UnresolvedConcat(LinesOf(c[0]), Flat(c[1..]), cursor);
    UnresolvedConcat(LinesOf(d[0]), Flat(d[1..]), cursor);
    if k == 0 {
      assert d[1..] == c[1..];
      CompactedLines(c[0], isCurrent, cursor);
    } else {
      TailUpdate(c, k, f);
      CompactKeeps(c[1..], k - 1, isCurrent, cursor);
      assert d[1..] == c[1..][k - 1 := Compacted(c[1..][k - 1], isCurrent, cursor)];
    }
  }

  lemma CompactedLines(f: Option<File>, isCurrent: bool, cursor: nat)
    ensures Unresolved(LinesOf(Compacted(f, isCurrent, cursor)), cursor) == Unresolved(LinesOf(f), cursor)
  {
    UnresolvedTwice(LinesOf(f), cursor);
  }

  lemma CompactedBytes(f: Option<File>, isCurrent: bool, cursor: nat)
    ensures FullBytes(Compacted(f, isCurrent, cursor)) <= FullBytes(f)
    ensures LinesOf(Compacted(f, isCurrent, cursor)) == Unresolved(LinesOf(f), cursor)
  {
    if f.Some? {
      UnresolvedMembers(LinesOf(f), cursor);
      if f.value.tail.Unended? { SizeAppend(f.value.lines, f.value.tail.line); }
    }
  }

  /** A chain whose every file holds only lines above the cursor. */
  lemma {:induction false} AllCompacted(c: Chain, cursor: nat)
    requires forall k :: 0 <= k < |c| ==> Unresolved(LinesOf(c[k]), cursor) == LinesOf(c[k])
    ensures Unresolved(Flat(c), cursor) == Flat(c)
  {
    if c != [] {
      AllCompacted(c[1..], cursor);
      UnresolvedConcat(LinesOf(c[0]), Flat(c[1..]), cursor);
    }
  }

  // ---------------------------------------------------------------- what may be delivered

  /** The deliverable records: unresolved ones in order, up to the first unresolved line that cannot be read. */
  function Deliverable(lines: seq<Line>, cursor: nat): seq<Line> {
    if lines == [] then []
    else if !lines[0].Lost? && lines[0].id <= cursor then Deliverable(lines[1..], cursor)
    else if lines[0].Readable? then [lines[0]] + Deliverable(lines[1..], cursor)
    else []
  }

  /** Does an unresolved line that cannot be read come before every deliverable record? */
  predicate HeadBlocked(lines: seq<Line>, cursor: nat) {
    lines != [] &&
    (if !lines[0].Lost? && lines[0].id <= cursor then HeadBlocked(lines[1..], cursor) else !lines[0].Readable?)
  }

  /** Deliverable records are readable and unresolved, in ascending order. */
  lemma {:induction false} DeliverableFacts(lines: seq<Line>, cursor: nat)
    requires Ascending(lines)
    ensures Ascending(Deliverable(lines, cursor))
    ensures forall i :: 0 <= i < |Deliverable(lines, cursor)| ==>
      var d := Deliverable(lines, cursor)[i]; d.Readable? && d.id > cursor
  {
    if lines != [] {
      DeliverableFacts(lines[1..], cursor);
      var d := Deliverable(lines[1..], cursor);
      forall i | 0 <= i < |d| ensures lines[0].id < d[i].id { DeliverableOnDisk(lines[1..], cursor, d[i]); }
    }
  }

  /** A deliverable record is on disk, and no unresolved corrupt line lies before it. */
  lemma {:induction false} DeliverableOnDisk(lines: seq<Line>, cursor: nat, d: Line)
    requires Ascending(lines) && d in Deliverable(lines, cursor)
    ensures d in lines && d.Readable?
    ensures forall l :: l in lines && l.Corrupt? && l.id > cursor ==> d.id < l.id
  {
    HeadIsLeast(lines);
    if lines[0].id <= cursor || d != lines[0] { DeliverableOnDisk(lines[1..], cursor, d); }
  }

  lemma HeadIsLeast(lines: seq<Line>)
    requires Ascending(lines) && lines != []
    ensures Ascending(lines[1..])
    ensures forall l :: l in lines <==> l == lines[0] || l in lines[1..]
    ensures forall l :: l in lines[1..] ==> lines[0].id < l.id
  {
  }
}
