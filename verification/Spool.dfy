/**
  The durable upload queue (`Spool` in monitor-v2/remote_probe/spool.py). The
  record chain and the saved state copy survive a power loss, which may fall
  between any two durable steps and may tear the line being appended; the working
  state does not. Which steps survive, which soft saves succeed and which appends
  fail in a process that goes on is left open.
  */
module Spool {
  import opened Prelude
  import opened SpoolChain
  import opened SpoolState
  import opened SpoolScan

  datatype OpenResult = Opened | Refused
  datatype AppendResult = Appended(id: nat) | TooLarge | Failed
  datatype BoundResult = WithinBudget | CannotReduce | ScanRefused

  /** How writing a line ends: it is durable, or an error comes after the whole of it or after a part. */
  datatype WriteEnd = Synced | Unsynced | Short

  /** How a save that must be durable ends: it is, it is in place but its sync fails, or it fails before that. */
  datatype SaveEnd = Saved | Unsure | Failing

  class Spool {
    const max: nat
    const fileBytes: nat
    const maxBytes: nat
    const maxAge: int
    /** May saves of the cursor file that nobody minds fail? If not, all of them get through that power allows. */
    const flaky: bool
    /** Durable: the record chain, and the last saved copy of the state. */
    var chain: Chain
    var saved: Option<State>
    /** Working memory. */
    var st: State
    /** How many steps the power lasts; anything may be left when an operation begins. */
    var power: nat
    /** History: the posts made for each record. */
    ghost var posts: Posts
    /**
      History: one if a failed append may have left a line under the next id of the working
      state, and of the saved copy. The counters themselves do not show it.
      */
    ghost var lag: nat
    ghost var savedLag: nat

    function Durable(): State
      reads this`saved
    {
      if saved.Some? then saved.value else INITIAL
    }

    /** No file grows past this: its budget, or the one record it holds. */
    function Cap(): nat { Max(fileBytes, RECORD_MAX_BYTES) }

    ghost function Copy(): State
      reads this`saved, this`savedLag
    {
      Lead(Durable(), savedLag)
    }

    ghost function Memory(): State
      reads this`st, this`lag
    {
      Lead(st, lag)
    }

    ghost predicate DiskOk()
      reads this`chain, this`saved, this`savedLag, this`posts
    {
      && 1 <= max && |chain| == max + 1
      && savedLag <= 1 && 0 < Durable().next && Stored(chain, max, Cap(), posts, Copy())
    }

    ghost predicate Ready()
      reads this`chain, this`saved, this`savedLag, this`posts, this`st, this`lag
    {
      DiskOk() && lag <= 1 && 0 < st.next && Working(chain, max, posts, Copy(), Memory()) && TailWaits()
    }

    /** Every id on disk is known and they strictly increase. */
    predicate InOrder()
      reads this`chain
    {
      Ascending(Flat(chain))
    }

    /** The current file ends in a part of a line. */
    predicate Torn()
      reads this`chain
    {
      |chain| == max + 1 && TailOf(chain, max).Part?
    }

    /** An unended line at the end of the current file is one a failed append left under the next id. */
    ghost predicate TailWaits()
      reads this`chain, this`st
    {
      |chain| == max + 1 && TailOf(chain, max).Unended? ==>
        TailOf(chain, max).line.Readable? && st.next <= TailOf(chain, max).line.id
    }

    /** The cursor is behind this id, in memory and in the saved copy. */
    ghost predicate Behind(id: nat)
      reads this`saved, this`st
    {
      st.resolved < id && Durable().resolved < id
    }

    /** An empty directory. */
    constructor (max: nat, fileBytes: nat, maxBytes: nat, maxAge: int, flaky: bool)
      requires 1 <= max
      ensures DiskOk() && Flat(chain) == [] && savedLag == 0
      ensures this.max == max && this.fileBytes == fileBytes && this.maxBytes == maxBytes
    {
      this.max, this.fileBytes, this.maxBytes, this.maxAge, this.flaky := max, fileBytes, maxBytes, maxAge, flaky;
      var empty := seq(max + 1, i => None);
      chain := empty;
      saved, st, posts, power, lag, savedLag := None, INITIAL, map[], 0, 0, 0;
      new;
      hide Stored, Flat;
      EmptyChain(empty, max, Cap());
    }

    /** Does the next step get through before the power goes? */
    method Survives() returns (yes: bool)
      modifies this`power
      ensures yes == (old(power) > 0)
      ensures power == if yes then old(power) - 1 else 0
    {
      yes := power > 0;
      if yes { power := power - 1; }
    }

    /** `_save_state_soft`: may fail without anyone minding, and power may go before or after it. */
    method SaveSoft() returns (alive: bool)
      modifies this`saved, this`savedLag, this`power
      ensures alive || old(power) == 0
      ensures !alive ==> power == 0
      ensures old(Ready()) ==> Ready()
      ensures (saved == old(saved) && savedLag == old(savedLag)) || (saved == Some(st) && savedLag == lag)
      ensures alive && !flaky ==> saved == Some(st)
    {
      alive := Survives();
      if !alive { return; }
      var written: bool := *;
      if written || !flaky {
        saved := Some(st);
        savedLag := lag;
      }
    }

    /** One durable change of the chain that loses known lines at most: a rename, an unlink, or a rewrite. */
    method Replace(c: Chain) returns (alive: bool)
      requires Ready()
      requires Shaped(c, max, Cap()) && KnownWithin(Flat(c), Flat(chain))
      requires TailOf(c, max) == TailOf(chain, max) || TailOf(c, max).Ended?
      modifies this`chain, this`power
      ensures !alive ==> power == 0
      ensures Ready()
      ensures alive ==> chain == c
      ensures !alive ==> chain == old(chain)
    {
      alive := Survives();
      if !alive { return; }
      StoredThinned(chain, c, max, Cap(), posts, Copy());
      WorkingThinned(chain, c, max, posts, Copy(), Memory());
      chain := c;
    }

    /**
      `_rotate`: shifts the chain oldest-outward, one rename at a time; at every point
      only the oldest lines are gone. What the current file ends in is left behind in the
      rotated one.
      */
    method Rotate() returns (alive: bool)
      requires Ready() && chain[max].Some?
      modifies this`chain, this`power
      ensures !alive ==> power == 0
      ensures Ready() && (old(!Torn()) ==> IsSuffix(Flat(chain), old(Flat(chain))))
      ensures alive ==> chain == Rotated(Sealed(old(chain), max))
    {
      ghost var from, start := chain, Flat(chain);
      var j := 1;
      while j < max
        invariant 1 <= j <= max
        invariant Ready() && IsSuffix(Flat(chain), start) && Shifting(from, chain, j)
      {
        ShiftingStep(from, chain, j);
        alive := FreePlace(j, start);
        if !alive { return; }
        j := j + 1;
      }
      ShiftingEnd(from, chain, max);
      alive := FreeOldest(start);
      if !alive { return; }
      alive := MoveCurrent(start);
    }

    /** One turn of the shift: a rotated file moves one place towards the oldest. */
    method FreePlace(j: nat, ghost start: seq<Line>) returns (alive: bool)
      requires Ready() && 0 < j < max && chain[max].Some? && (j > 1 ==> chain[j - 1].None?)
      requires IsSuffix(Flat(chain), start)
      modifies this`chain, this`power
      ensures !alive ==> power == 0
      ensures Ready() && IsSuffix(Flat(chain), start) && chain[max] == old(chain)[max]
      ensures alive ==> chain == if old(chain)[j].Some? then Shift(old(chain), j) else old(chain)
    {
      if chain[j].None? { return true; }
      ShapedShift(chain, max, Cap(), j);
      ShiftDropsOldest(chain, j);
      alive := Shrink(Shift(chain, j), start);
    }

    /** The unlink of the oldest file, if it is still there. */
    method FreeOldest(ghost start: seq<Line>) returns (alive: bool)
      requires Ready() && IsSuffix(Flat(chain), start)
      modifies this`chain, this`power
      ensures !alive ==> power == 0
      ensures Ready() && IsSuffix(Flat(chain), start)
      ensures alive ==> chain == old(chain)[0 := None]
    {
      if chain[0].None? {
        assert chain[0 := None] == chain;
        return true;
      }
      ShapedUnlink(chain, max, Cap());
      UnlinkOldest(chain);
      alive := Shrink(chain[0 := None], start);
    }

    method Shrink(next: Chain, ghost start: seq<Line>) returns (alive: bool)
      requires Ready() && IsSuffix(Flat(next), Flat(chain)) && IsSuffix(Flat(chain), start)
      requires Shaped(next, max, Cap()) && TailOf(next, max) == TailOf(chain, max)
      modifies this`chain, this`power
      ensures !alive ==> power == 0 && chain == old(chain)
      ensures Ready() && IsSuffix(Flat(chain), start)
      ensures alive ==> chain == next
    {
      SuffixTransitive(Flat(next), Flat(chain), start);
      SuffixIsWithin(Flat(next), Flat(chain));
      alive := Replace(next);
    }

    /** The last rename of the rotation: the current file, with what it ends in. */
    method MoveCurrent(ghost start: seq<Line>) returns (alive: bool)
      requires Ready() && chain[max].Some? && chain[0].None? && (max > 1 ==> chain[max - 1].None?)
      requires IsSuffix(Flat(chain), start)
      modifies this`chain, this`power
      ensures !alive ==> power == 0
      ensures Ready() && (old(!Torn()) ==> IsSuffix(Flat(chain), start))
      ensures alive ==> chain == Shift(Sealed(old(chain), max), max)
    {
      var sealed := Sealed(chain, max);
      var next := Shift(sealed, max);
      StoredSealed(chain, max, Cap());
      ShapedShift(sealed, max, Cap(), max);
      ShiftDropsOldest(sealed, max);
      SuffixIsWithin(Flat(next), Flat(sealed));
      if !Torn() { SuffixTransitive(Flat(next), Flat(chain), start); }
      alive := Replace(next);
    }

    /**
      The write and its fsync. Either may fail and leave nothing, part of the line or all
      of it; the next id moves on exactly if neither does. A power loss leaves any part.
      */
    method Write(line: Line, end: WriteEnd) returns (ok: bool, alive: bool)
      requires Ready() && line.Readable? && line.id == st.next && FileBytes(chain[max]) + line.size <= Cap()
      modifies this`chain, this`posts, this`st, this`lag, this`power
      ensures !alive ==> power == 0 && !ok
      ensures DiskOk() && (alive ==> Ready())
      ensures ok ==> st == old(st).(next := line.id + 1) && lag == 0 && chain == Written(old(chain), max, line)
      ensures ok ==> power < old(power)
      ensures alive ==> (ok <==> end == Synced)
      ensures !ok ==> st == old(st) && LeftBy(old(chain), chain, max, line)
    {
      hide Flat, Stored, Working, FileBytes, Written;
      WriteKeeps(line);
      alive := Survives();
      if !alive || end == Short {
        StopShort(line);
        return false, alive;
      }
      var whole := TailOf(chain, max).Ended?;
      chain := Written(chain, max, line);
      if whole { posts := posts[line.id := 0]; }
      if end == Unsynced {
        if whole { lag := 1; }
        return false, true;
      }
      st, lag := st.(next := line.id + 1), 0;
      return true, true;
    }

    lemma WriteKeeps(line: Line)
      requires Ready() && line.Readable? && line.id == st.next && FileBytes(chain[max]) + line.size <= Cap()
      ensures var d, m := Written(chain, max, line), Memory().(next := line.id + 1);
        var whole := TailOf(chain, max).Ended?;
        var p := if whole then posts[line.id := 0] else posts;
        && TailOf(d, max).Ended?
        && Stored(d, max, Cap(), p, Copy()) && Working(d, max, p, Copy(), m)
        && (!whole ==> Working(d, max, p, Copy(), Memory()))
    {
      hide Flat, FileBytes, FullBytes, Tracks, Shaped, KnownWithin, AllBelow;
      if TailOf(chain, max).Ended? {
        WrittenFile(chain, max, Cap(), line);
        var f := File(CurrentLines(chain, max) + [line], Ended);
        StoredAdded(chain, max, Cap(), posts, Copy(), Memory(), f, line);
      } else {
        StoredMerged(chain, max, Cap(), posts, Copy(), Memory(), line, Memory().next);
        StoredMerged(chain, max, Cap(), posts, Copy(), Memory(), line, line.id + 1);
      }
    }

    /** Nothing, or the first bytes of the line, are at the end of the current file. */
    method StopShort(line: Line)
      requires Ready() && line.Readable? && line.id == st.next && FileBytes(chain[max]) + line.size <= Cap()
      modifies this`chain, this`posts, this`lag
      ensures Ready() && LeftBy(old(chain), chain, max, line)
    {
      hide Flat, Stored, Working, FileBytes, FullBytes;
      var more: nat :| more < line.size;
      if more == 0 { return; }
      var tail := Begun(TailOf(chain, max), line, more);
      BeginKeeps(line, more);
      if tail.Unended? {
        posts := posts[line.id := 0];
        lag := 1;
      }
      chain := Ending(chain, max, tail);
    }

    lemma BeginKeeps(line: Line, more: nat)
      requires Ready() && line.Readable? && line.id == st.next && FileBytes(chain[max]) + line.size <= Cap()
      requires 0 < more < line.size
      ensures var tail := Begun(TailOf(chain, max), line, more);
        var d, p := Ending(chain, max, tail), if tail.Unended? then posts[line.id := 0] else posts;
        && Stored(d, max, Cap(), p, Copy())
        && Working(d, max, p, Copy(), if tail.Unended? then Memory().(next := line.id + 1) else Memory())
    {
      hide Flat, FullBytes, Tracks, Shaped, KnownWithin, AllBelow;
      var tail := Begun(TailOf(chain, max), line, more);
      if tail.Unended? {
        WrittenFile(chain, max, Cap(), line);
        var f := File(CurrentLines(chain, max), tail);
        StoredAdded(chain, max, Cap(), posts, Copy(), Memory(), f, line);
      } else {
        BytesOfCurrent(chain, max);
        StoredEnding(chain, max, Cap(), posts, Copy(), tail);
        WorkingThinned(chain, Ending(chain, max, tail), max, posts, Copy(), Memory());
      }
    }

    /**
      `append`. The record gets the next id and becomes the last line; room is made by one
      rotation, exactly when the current file would outgrow its budget, which drops oldest
      lines only. A chain in order stays in order exactly if the line runs into nothing and,
      once room is made, no line has that id or a higher one. The record counts as unresolved
      exactly if the cursor was below the next id.
      */
    method Append(epoch: int, size: Bytes, end: WriteEnd) returns (r: AppendResult, alive: bool, ghost kept: seq<Line>)
      requires Ready()
      modifies this`chain, this`posts, this`st, this`lag, this`saved, this`savedLag, this`power
      ensures !alive ==> power == 0
      ensures DiskOk() && (alive ==> Ready())
      ensures r == TooLarge <==> 32_768 < size
      ensures r == TooLarge ==> chain == old(chain) && saved == old(saved) && lag == old(lag)
      ensures !r.Appended? ==> st == old(st)
      ensures alive && size <= 32_768 ==> (r.Appended? <==> end == Synced)
      ensures r.Appended? ==>
        && r.id == old(st.next) && st == old(st).(next := r.id + 1) && lag == 0
        && chain == Grown(old(chain), max, fileBytes, Readable(r.id, epoch, size))
      ensures r.Appended? && old(lag) == 0 ==> r.id > old(st.resolved) && AllBelow(old(Flat(chain)), r.id)
      ensures kept == Flat(MadeRoom(old(chain), max, fileBytes, size))
      ensures old(FileBytes(chain[max])) + size <= fileBytes ==> kept == old(Flat(chain))
      ensures r.Appended? && old(chain[max].Some?) && old(FileBytes(chain[max])) + size > fileBytes ==>
        chain[max].Some? && |chain[max].value.lines| == 1
      ensures r.Appended? && !RunsInto(old(chain), max, fileBytes, size) ==>
        && IsSuffix(kept, old(Flat(chain))) && Flat(chain) == kept + [Readable(r.id, epoch, size)]
        && (Readable(r.id, epoch, size) in Unresolved(Flat(chain), st.resolved) <==>
              old(st.resolved) < old(st.next))
      ensures r.Appended? && old(InOrder()) ==>
        (InOrder() <==> !RunsInto(old(chain), max, fileBytes, size) && AllBelow(kept, r.id))
      ensures old(InOrder()) && !old(Torn()) && AllBelow(old(Flat(chain)), old(st.next)) ==> InOrder()
      ensures r == Failed && alive ==>
        LeftBy(MadeRoom(old(chain), max, fileBytes, size), chain, max, Readable(st.next, epoch, size))
      ensures st.resolved == old(st.resolved)
      ensures (saved == old(saved) && savedLag == old(savedLag)) || (saved == Some(st) && savedLag == lag)
      ensures r.Appended? && alive && !flaky ==> saved == Some(st)
    {
      hide Flat, Tracks, Ascending, AllBelow, Shaped, IsSuffix, Rotated, Sealed, RunsInto, LeftBy, Unresolved;
      kept := Flat(MadeRoom(chain, max, fileBytes, size));
      if size > RECORD_MAX_BYTES { return TooLarge, true, kept; }
      var line := Readable(st.next, epoch, size);
      AppendFacts(line);
      alive := true;
      if chain[max].Some? && FileBytes(chain[max]) + size > fileBytes {
        RotatedIsFree(Sealed(chain, max));
        alive := Rotate();
        if !alive {
          if old(InOrder()) && !old(Torn()) { SuffixAscends(Flat(chain), old(Flat(chain))); }
          return Failed, false, kept;
        }
      }
      ghost var room := chain;
      var ok;
      ok, alive := Write(line, end);
      if !ok {
        if old(InOrder()) && !old(Torn()) && AllBelow(old(Flat(chain)), old(st.next)) {
          LeftInOrder(room, chain, max, line);
        }
        return Failed, alive, kept;
      }
      UnresolvedMembers(Flat(chain), st.resolved);
      alive := SaveSoft();
      return Appended(line.id), alive, kept;
    }

    /** What an append does to the order, and that there is room for its line. */
    lemma AppendFacts(line: Line)
      requires Ready() && line.Readable? && line.id == st.next && line.size <= RECORD_MAX_BYTES
      ensures var room := MadeRoom(chain, max, fileBytes, line.size); var d := Grown(chain, max, fileBytes, line);
        && FileBytes(room[max]) + line.size <= Cap()
        && (lag == 0 ==> st.resolved < st.next && AllBelow(Flat(chain), st.next))
        && (InOrder() ==>
              (Ascending(Flat(d)) <==> !RunsInto(chain, max, fileBytes, line.size) && AllBelow(Flat(room), line.id)))
        && (!RunsInto(chain, max, fileBytes, line.size) ==>
              IsSuffix(Flat(room), Flat(chain)) && Flat(d) == Flat(room) + [line])
        && (!Torn() && InOrder() ==> Ascending(Flat(room)))
        && (!Torn() && AllBelow(Flat(chain), st.next) ==>
              AllBelow(Flat(room), st.next) && TailOf(room, max).Ended? && (InOrder() ==> Ascending(Flat(d))))
    {
      hide Flat, Ascending, IsSuffix, AllBelow, FileBytes, Shaped, HeadIsNewest, HighestIsNewest, Covers, MadeRoom;
      var room := MadeRoom(chain, max, fileBytes, line.size);
      RoomIsThere(chain, max, fileBytes, line.size);
      if InOrder() { AppendKeepsOrder(chain, max, fileBytes, line); }
      if !Torn() {
        RoomKeepsSuffix(chain, max, fileBytes, line.size);
        if InOrder() { SuffixAscends(Flat(room), Flat(chain)); }
        SuffixBelow(Flat(room), Flat(chain), st.next);
        if AllBelow(Flat(chain), st.next) {
          NothingWaits(chain, max, st.next);
          RoomIsWhole(chain, max, fileBytes, line.size);
        }
        if TailOf(room, max).Ended? { FlatWritten(room, max, line); }
      }
    }

    /**
      `_compact_resolved`: rewrites each file without the lines at or below the cursor, file
      by file. It stops at a file with a line or a part of a line that has no id.
      */
    method Compact() returns (done: bool, alive: bool)
      requires Ready()
      modifies this`chain, this`power
      ensures !alive ==> power == 0
      ensures Ready() && Unresolved(Flat(chain), st.resolved) == old(Unresolved(Flat(chain), st.resolved))
      ensures Within(Flat(chain), old(Flat(chain))) && (old(InOrder()) ==> InOrder()) && (old(!Torn()) ==> !Torn())
      ensures alive && done ==> Flat(chain) == old(Unresolved(Flat(chain), st.resolved)) && Tidy(chain)
      ensures alive && !done ==> !old(InOrder()) || old(Torn())
      ensures old(Tidy(chain)) ==> Tidy(chain)
    {
      hide Flat, Unresolved, Ascending, Tracks, Shaped, AllBelow;
      ghost var start, cursor := Flat(chain), st.resolved;
      ghost var left := Unresolved(start, cursor);
      alive := true;
      var k := 0;
      while k <= max
        invariant 0 <= k <= max + 1
        invariant Ready() && (old(InOrder()) ==> InOrder()) && (old(Tidy(chain)) ==> Tidy(chain))
        invariant k <= max ==> TailOf(chain, max) == old(TailOf(chain, max))
        invariant Unresolved(Flat(chain), cursor) == left && Within(Flat(chain), start)
        invariant CompactedUpTo(chain, k, cursor)
        invariant forall i :: 0 <= i < k && chain[i].Some? ==> chain[i].value.tail.Ended?
      {
        if HasLost(LinesOf(chain[k])) || (k == max && Torn()) {
          if InOrder() { OrderedHasNoLost(chain, k); }
          return false, true;
        }
        ghost var before := chain;
        alive := CompactFile(k, start);
        if !alive { return true, false; }
        CompactStepExtends(before, chain, k, cursor);
        k := k + 1;
      }
      AllCompacted(chain, cursor);
      done := true;
    }

    method CompactFile(k: nat, ghost start: seq<Line>) returns (alive: bool)
      requires Ready() && k <= max && Within(Flat(chain), start) && (k == max ==> !Torn())
      modifies this`chain, this`power
      ensures !alive ==> power == 0
      ensures Ready() && CompactStep(old(chain), chain, k, st.resolved) && Within(Flat(chain), start)
      ensures (old(InOrder()) ==> InOrder()) && (old(!Torn()) ==> !Torn())
      ensures alive ==> Unresolved(LinesOf(chain[k]), st.resolved) == LinesOf(chain[k])
      ensures alive && chain[k].Some? ==> chain[k].value.tail.Ended?
      ensures !alive ==> chain == old(chain)
    {
      hide Flat, Unresolved, Ascending, Tracks, AllBelow;
      var c := chain;
      NothingCompacted(c, k, st.resolved);
      if c[k].None? { return true; }
      StoredCompacted(c, max, Cap(), k, st.resolved);
      alive := Replace(c[k := Compacted(c[k], k == max, st.resolved)]);
    }

    /**
      `open`: load the saved copy, cut what follows the last newline, scan, and move the
      next id above every id on disk. It refuses exactly a chain out of order.
      */
    method Open() returns (r: OpenResult, alive: bool)
      requires |chain| == max + 1
      modifies this`st, this`lag, this`chain, this`saved, this`savedLag, this`power
      ensures alive || old(power) < 2
      ensures !alive ==> power == 0
      ensures chain == old(chain) || chain == Mended(old(chain), max)
      ensures alive ==> chain == Mended(old(chain), max)
      ensures alive ==> (r == Refused <==> !InOrder())
      ensures old(DiskOk()) ==> DiskOk() && (alive && r == Opened ==> Ready())
      ensures st.resolved == Durable().resolved == old(Durable().resolved)
      ensures lag <= old(savedLag) && savedLag <= old(savedLag)
      ensures alive && r == Opened ==>
        AllBelow(Flat(chain), st.next) && st.next == Max(old(Durable().next), LastId(Flat(chain)) + 1)
      ensures alive && r == Opened && st.next != old(Durable().next) && Flat(chain) != [] ==>
        Names(Flat(chain), st.next - 1)
      ensures Durable().next == old(Durable().next) ||
        (chain == Mended(old(chain), max) && Durable().next == Max(old(Durable().next), LastId(Flat(chain)) + 1))
      ensures alive && r == Opened && lag != 0 ==> st == old(Durable()).(attempts := st.attempts)
      ensures Durable().attempts == old(Durable().attempts)
      ensures alive && !flaky && r == Opened ==> Durable().next == st.next
      ensures alive && r == Opened ==> OnlyLive(st.attempts, Durable().attempts, Flat(chain), st.resolved)
    {
      hide Flat, Ascending, AllBelow, LastId, Stored, Working, TailWaits;
      st, lag := Durable(), savedLag;
      alive := RepairTail();
      if !alive { return Opened, false; }
      r, alive := Reconcile();
    }

    /** `_reconcile_ids`. */
    method Reconcile() returns (r: OpenResult, alive: bool)
      requires |chain| == max + 1 && TailOf(chain, max).Ended? && st == Durable() && lag == savedLag
      modifies this`st, this`lag, this`saved, this`savedLag, this`power
      ensures alive || old(power) == 0
      ensures !alive ==> power == 0
      ensures r == Refused <==> !InOrder()
      ensures old(DiskOk()) ==> DiskOk() && (alive && r == Opened ==> Ready())
      ensures st.resolved == Durable().resolved == old(Durable().resolved)
      ensures lag <= old(lag) && savedLag <= old(savedLag)
      ensures r == Opened ==>
        AllBelow(Flat(chain), st.next) && st.next == Max(old(st.next), LastId(Flat(chain)) + 1)
      ensures r == Opened && st.next != old(st.next) && Flat(chain) != [] ==> Names(Flat(chain), st.next - 1)
      ensures Durable().next == old(st.next) || (r == Opened && Durable().next == st.next)
      ensures alive && !flaky && r == Opened ==> Durable().next == st.next
      ensures r == Opened && lag != 0 ==> st == old(st).(attempts := st.attempts)
      ensures Durable().attempts == old(st.attempts)
      ensures alive && r == Opened ==> OnlyLive(st.attempts, old(st.attempts), Flat(chain), st.resolved)
    {
      hide Flat, Tracks, Ascending, AllBelow, Shaped, LastId, ReadableOf, FirstCorrupt;
      var report := ScanLines(Flat(chain), st.resolved);
      if report.None? { return Refused, true; }
      LastIdNames(Flat(chain));
      r := Opened;
      alive := RaiseNext(report.value.ceiling + 1);
      if alive { KeepLiveRetries(); }
    }

    /** Only deliverable records keep their retry counts. */
    method KeepLiveRetries()
      modifies this`st
      ensures st == old(st).(attempts := st.attempts)
      ensures OnlyLive(st.attempts, old(st.attempts), Flat(chain), st.resolved)
      ensures old(Ready()) ==> Ready()
    {
      if Ready() { ReconciledWorks(chain, max, posts, Copy(), Memory()); }
      KeepLiveIsExact(st.attempts, Flat(chain), st.resolved);
      st := st.(attempts := KeepLive(st.attempts, Flat(chain), st.resolved));
    }

    /** The next id is raised above every id on disk. */
    method RaiseNext(wanted: nat) returns (alive: bool)
      requires |chain| == max + 1 && TailOf(chain, max).Ended? && st == Durable() && lag == savedLag && InOrder()
      requires wanted == LastId(Flat(chain)) + 1
      modifies this`st, this`lag, this`saved, this`savedLag, this`power
      ensures alive || old(power) == 0
      ensures !alive ==> power == 0
      ensures st == Advanced(old(st), Flat(chain))
      ensures (saved == old(saved) && savedLag == old(savedLag)) || (saved == Some(st) && savedLag == lag)
      ensures lag <= old(lag) && (lag != 0 ==> st == old(st)) && AllBelow(Flat(chain), st.next)
      ensures old(DiskOk()) ==> Ready()
      ensures alive && !flaky && st != old(st) ==> saved == Some(st)
    {
      hide Flat, Tracks, Ascending, AllBelow;
      LastIdBelow(Flat(chain), wanted, Max(wanted, st.next));
      if DiskOk() { AdvancedWorks(chain, max, Cap(), posts, Copy()); }
      alive := true;
      if wanted > st.next {
        st, lag := st.(next := wanted), 0;
        alive := SaveSoft();
      }
    }

    /** `_repair_tail`: one durable truncation of what follows the last newline, if anything does. */
    method RepairTail() returns (alive: bool)
      requires |chain| == max + 1
      modifies this`chain, this`power
      ensures !alive ==> power == 0
      ensures if alive then old(power) <= power + 1 else old(power) == 0
      ensures chain == if alive then Mended(old(chain), max) else old(chain)
      ensures old(DiskOk()) ==> DiskOk()
    {
      hide Flat, Tracks;
      if TailOf(chain, max).Ended? { return true; }
      alive := Survives();
      if !alive { return; }
      if DiskOk() {
        BytesOfCurrent(chain, max);
        StoredEnding(chain, max, Cap(), posts, Copy(), Ended);
      }
      chain := Mended(chain, max);
    }

    /**
      `pending`: what may be delivered, or a refusal: of a chain out of order, of a part of
      a line at its end, or when the head cannot be read.
      */
    method Pending() returns (r: Option<seq<Line>>)
      requires |chain| == max + 1
      ensures r.None? <==> !InOrder() || Torn() || HeadBlocked(Flat(chain), st.resolved)
      ensures InOrder() && !Torn() ==> (r.None? <==>
        Deliverable(Flat(chain), st.resolved) == [] && exists l :: l in Flat(chain) && l.Corrupt? && st.resolved < l.id)
      ensures r.Some? ==> r.value == Deliverable(Flat(chain), st.resolved)
    {
      if Torn() { return None; }
      var report := ScanLines(Flat(chain), st.resolved);
      if report.None? { return None; }
      ChosenIsDeliverable(Flat(chain), st.resolved);
      BlockedExactly(Flat(chain), st.resolved);
      var picked := Choose(report.value.found, st.resolved, report.value.blocked);
      if report.value.blocked != 0 && picked == [] { return None; }
      return Some(picked);
    }

    /** The record is deliverable and no deliverable record comes before it. */
    ghost predicate IsHead(id: nat)
      reads this`chain, this`st
    {
      Live(Flat(chain), st.resolved, id) && Least(Flat(chain), st.resolved, id)
    }

    /** One more post of this record is covered by the working and by the saved count. */
    ghost predicate Reserved(id: nat)
      reads this`chain, this`saved, this`savedLag, this`posts, this`st, this`lag
    {
      var more := posts[id := PostsOf(posts, id) + 1];
      && savedLag <= 1 && 0 < Durable().next && lag <= 1 && 0 < st.next && TailWaits()
      && Stored(chain, max, Cap(), more, Copy()) && Working(chain, max, more, Copy(), Memory())
    }

    /**
      `note_attempt`: counts one attempt durably, or not at all in memory. When it
      reports a count, the count is saved, and one more post of the head is covered. A save that
      is durable but not known to be, and one that fails, report none.
      */
    method NoteAttempt(id: nat, save: SaveEnd) returns (count: Option<nat>, alive: bool)
      requires Ready()
      modifies this`st, this`saved, this`savedLag, this`power
      ensures !alive ==> power == 0
      ensures old(IsHead(id)) ==> Ready()
      ensures (saved == old(saved) && savedLag == old(savedLag)) ||
        (saved == Some(old(st).(attempts := Trimmed(Charged(old(st).attempts, id)))) && savedLag == lag)
      ensures count.None? ==> st == old(st)
      ensures count.Some? ==> alive && power < old(power)
      ensures alive ==> (count.Some? <==> save == Saved)
      ensures count.Some? ==>
        && count.value == CountOf(old(st).attempts, id) + 1 == CountOf(st.attempts, id)
        && CountedOnce(st.attempts, old(st.attempts), id, count.value)
        && st == old(st).(attempts := Trimmed(Charged(old(st).attempts, id))) && saved == Some(st)
      ensures count.Some? && old(IsHead(id)) ==> Reserved(id)
    {
      hide Flat, Tracks, AllBelow, Shaped, Live, Least, Charged, Trimmed, CountOf, PostsOf;
      var previous := st;
      ChargeTable(id);
      if IsHead(id) {
        LiveIsBelow(Flat(chain), st.resolved, id, Memory().next);
        TracksCharge(Flat(chain), posts, Memory(), id);
      }
      st := st.(attempts := Trimmed(Charged(st.attempts, id)));
      alive := Survives();
      if alive && save != Failing {
        saved := Some(st);
        savedLag := lag;
        if save == Saved { return Some(CountOf(previous.attempts, id) + 1), true; }
      }
      st := previous;
      count := None;
    }

    lemma ChargeTable(id: nat)
      requires Ready()
      ensures CountedOnce(Trimmed(Charged(st.attempts, id)), st.attempts, id, CountOf(st.attempts, id) + 1)
      ensures CountOf(Trimmed(Charged(st.attempts, id)), id) == CountOf(st.attempts, id) + 1
    {
      ChargeIsExact(st.attempts, id);
    }

    /**
      `resolve`: the cursor moves to the record and its retry count goes; an id at or below the
      cursor changes nothing.
      */
    method Resolve(id: nat) returns (moved: bool, alive: bool)
      requires Ready()
      modifies this`st, this`saved, this`savedLag, this`power
      ensures !alive ==> power == 0
      ensures moved <==> old(st.resolved) < id
      ensures st == if moved then State(old(st.next), id, Without(old(st.attempts), id)) else old(st)
      ensures moved ==> Uncharged(st.attempts, old(st.attempts), id)
      ensures id < old(Memory().next) ==> Ready()
      ensures (saved == old(saved) && savedLag == old(savedLag)) || (saved == Some(st) && savedLag == lag)
      ensures moved && alive && !flaky ==> saved == Some(st)
    {
      hide Flat, AllBelow, Shaped, HeadIsNewest, HighestIsNewest, Covers, Without;
      if id <= st.resolved { return false, true; }
      if id < Memory().next {
        TracksResolve(Flat(chain), posts, Memory(), id);
        TracksForget(Flat(chain), posts, Memory().(resolved := id), id);
      }
      WithoutIsExact(st.attempts, id);
      st := State(st.next, id, Without(st.attempts, id));
      moved := true;
      alive := SaveSoft();
    }

    /**
      `enforce_bounds`: drops what has aged, then oldest records until the chain fits. A record
      the cursor passes was to be dropped, by its age or for want of room, wherever the power
      goes; a complete pass drops exactly those. It succeeds only within the byte budget, and
      gives up only when nothing that may be dropped is left; either way nothing deliverable is
      left that has aged. It refuses a chain out of order or with a part of a line at its end.
      Wherever the power goes, a corrupt line that was unresolved stays on disk, above the
      working and the saved cursor, and every line lost is at or below the working one.
      */
    method EnforceBounds(now: int) returns (r: BoundResult, alive: bool)
      requires Ready()
      modifies this`st, this`saved, this`savedLag, this`chain, this`power
      ensures !alive ==> power == 0
      ensures Ready() && (old(InOrder()) ==> InOrder()) && (old(!Torn()) ==> !Torn())
      ensures st == old(st).(resolved := st.resolved) && (saved == old(saved) || (saved == Some(st) && savedLag == lag))
      ensures Retained(old(Flat(chain)), old(st.resolved), Flat(chain), st.resolved)
      ensures forall l :: l in old(Flat(chain)) && l.Corrupt? && old(st.resolved) < l.id ==>
        l in Flat(chain) && Behind(l.id)
      ensures forall l :: l in old(Flat(chain)) && l.Readable? && old(st.resolved) < l.id <= st.resolved ==>
        Dropped(old(Flat(chain)), old(st.resolved), l, now, maxAge, maxBytes)
      ensures alive && r == ScanRefused ==> !old(InOrder()) || old(Torn())
      ensures alive && r != ScanRefused ==> InOrder() && NoneAged(Flat(chain), st.resolved, now, maxAge)
      ensures alive && r != ScanRefused ==>
        AllDropped(old(Flat(chain)), old(st.resolved), st.resolved, now, maxAge, maxBytes)
      ensures alive && r == WithinBudget ==>
        ChainBytes(chain) <= maxBytes && Flat(chain) == Unresolved(old(Flat(chain)), st.resolved)
      ensures alive && r == CannotReduce ==> maxBytes < ChainBytes(chain) && Deliverable(Flat(chain), st.resolved) == []
      ensures alive && r != ScanRefused && !flaky ==> saved == Some(st)
    {
      hide Flat, Retained, Tracks, Ascending, AllBelow, Shaped, NoneAged, Unresolved, Deliverable, OnlyDropped,
        AllDropped, Dropped;
      ghost var start, from := Flat(chain), st.resolved;
      var done;
      done, alive := Compact();
      r := ScanRefused;
      CompactionRetains(start, from, Flat(chain));
      if alive && done {
        var report := ScanLines(Flat(chain), st.resolved);
        if report.Some? {
          ghost var mid := Flat(chain);
          UnresolvedNested(start, from, from);
          r, alive := Reduce(now);
          RetainedTransitive(start, from, mid, from, Flat(chain), st.resolved);
          PassOverAll(start, from, mid, Flat(chain), st.resolved, now);
          UnresolvedNested(start, from, st.resolved);
        }
      }
      RetainedKeeps(start, from, Flat(chain), st.resolved);
    }

    /** What holds of the pass after the first compaction holds of the whole pass. */
    lemma PassOverAll(start: seq<Line>, from: nat, mid: seq<Line>, lines: seq<Line>, cursor: nat, now: int)
      requires mid == Unresolved(start, from) && Ascending(mid) && Retained(mid, from, lines, cursor)
      requires OnlyDropped(mid, from, cursor, now, maxAge, maxBytes)
      ensures forall l :: l in start && l.Readable? && from < l.id <= cursor ==>
        Dropped(start, from, l, now, maxAge, maxBytes)
      ensures AllDropped(mid, from, cursor, now, maxAge, maxBytes) ==>
        AllDropped(start, from, cursor, now, maxAge, maxBytes)
    {
      hide Unresolved, Dropped, Ascending, Retained;
      UnresolvedMembers(start, from);
      DeliverableOfUnresolved(start, from);
      forall l | l in start && l.Readable? && from < l.id <= cursor
        ensures Dropped(start, from, l, now, maxAge, maxBytes)
      {
        PassedWasDeliverable(mid, from, lines, cursor, l);
        DroppedAfterCompaction(start, from, l, now, maxAge, maxBytes);
      }
      if AllDropped(mid, from, cursor, now, maxAge, maxBytes) {
        forall d | d in Deliverable(start, from) && d.Readable? && 0 < d.id && cursor < d.id
          ensures !Dropped(start, from, d, now, maxAge, maxBytes)
        {
          assert from <= cursor by { RetainedMovesUp(mid, from, lines, cursor); }
          DroppedAfterCompaction(start, from, d, now, maxAge, maxBytes);
        }
      }
    }

    /** What follows the first compaction and the scan. */
    method Reduce(now: int) returns (r: BoundResult, alive: bool)
      requires Ready() && InOrder() && Tidy(chain) && Unresolved(Flat(chain), st.resolved) == Flat(chain)
      modifies this`st, this`saved, this`savedLag, this`chain, this`power
      ensures !alive ==> power == 0
      ensures Ready() && InOrder() && Tidy(chain) && r != ScanRefused
      ensures Retained(old(Flat(chain)), old(st.resolved), Flat(chain), st.resolved)
      ensures st == old(st).(resolved := st.resolved) && (saved == old(saved) || (saved == Some(st) && savedLag == lag))
      ensures OnlyDropped(old(Flat(chain)), old(st.resolved), st.resolved, now, maxAge, maxBytes)
      ensures alive ==> NoneAged(Flat(chain), st.resolved, now, maxAge)
      ensures alive ==> AllDropped(old(Flat(chain)), old(st.resolved), st.resolved, now, maxAge, maxBytes)
      ensures alive && r == WithinBudget ==>
        ChainBytes(chain) <= maxBytes && Flat(chain) == Unresolved(old(Flat(chain)), st.resolved)
      ensures alive && r == CannotReduce ==> maxBytes < ChainBytes(chain) && Deliverable(Flat(chain), st.resolved) == []
      ensures alive && !flaky ==> saved == Some(st)
    {
      hide Flat, Retained, Tracks, AllBelow, Shaped, NoneAged, OnlyDropped, AllDropped, OnlyCrowded, AllCrowded,
        Unresolved, Deliverable, AgedCursor, Ascending;
      ghost var lines, from := Flat(chain), st.resolved;
      RetainsItself(lines, from);
      AgeOut(now, lines, from);
      ghost var at := st.resolved;
      r, alive := Fit();
      RetainedTransitive(lines, from, lines, at, Flat(chain), st.resolved);
      NoneAgedLater(lines, at, Flat(chain), st.resolved, now, maxAge);
      RetainedMovesUp(lines, at, Flat(chain), st.resolved);
      PassIsExact(lines, from, at, st.resolved, now, maxAge, maxBytes);
    }

    /** What follows the age loop: the byte loop, a save, and a last compaction. */
    method Fit() returns (r: BoundResult, alive: bool)
      requires Ready() && InOrder() && Tidy(chain)
      modifies this`st, this`saved, this`savedLag, this`chain, this`power
      ensures !alive ==> power == 0
      ensures Ready() && InOrder() && Tidy(chain) && r != ScanRefused
      ensures Retained(old(Flat(chain)), old(st.resolved), Flat(chain), st.resolved)
      ensures st == old(st).(resolved := st.resolved) && (saved == old(saved) || (saved == Some(st) && savedLag == lag))
      ensures OnlyCrowded(old(Flat(chain)), old(st.resolved), st.resolved, maxBytes)
      ensures alive ==> AllCrowded(old(Flat(chain)), old(st.resolved), st.resolved, maxBytes)
      ensures alive && r == WithinBudget ==>
        ChainBytes(chain) <= maxBytes && Flat(chain) == Unresolved(old(Flat(chain)), st.resolved)
      ensures alive && r == CannotReduce ==> maxBytes < ChainBytes(chain) && Deliverable(Flat(chain), st.resolved) == []
      ensures alive && !flaky ==> saved == Some(st)
    {
      hide Flat, Retained, Ready, Deliverable, Unresolved, OnlyCrowded, AllCrowded, LoopState;
      ghost var start, from := Flat(chain), st.resolved;
      r, alive := FitBudget();
      LoopFacts(start, from, Flat(chain), st.resolved, maxBytes);
      if !alive { return; }
      alive := SaveSoft();
      if !alive || r == CannotReduce { return; }
      UnresolvedNested(start, st.resolved, st.resolved);
      alive := CompactRetaining(start, from);
    }

    /** The byte loop: oldest records go until the chain fits or nothing may go. */
    method FitBudget() returns (r: BoundResult, alive: bool)
      requires Ready() && InOrder() && Tidy(chain)
      modifies this`st, this`chain, this`power
      ensures !alive ==> power == 0
      ensures Ready() && InOrder() && Tidy(chain) && r != ScanRefused
      ensures st == old(st).(resolved := st.resolved)
      ensures Retained(old(Flat(chain)), old(st.resolved), Flat(chain), st.resolved)
      ensures OnlyCrowded(old(Flat(chain)), old(st.resolved), st.resolved, maxBytes)
      ensures alive ==> LoopState(old(Flat(chain)), old(st.resolved), Flat(chain), st.resolved, maxBytes)
      ensures alive ==> AllCrowded(old(Flat(chain)), old(st.resolved), st.resolved, maxBytes)
      ensures alive && r == WithinBudget ==> ChainBytes(chain) <= maxBytes
      ensures alive && r == CannotReduce ==> maxBytes < ChainBytes(chain) && Deliverable(Flat(chain), st.resolved) == []
      ensures old(ChainBytes(chain)) <= maxBytes ==> chain == old(chain) && st == old(st)
    {
      hide Flat, Retained, Ready, Deliverable, Unresolved, OnlyCrowded, AllCrowded, LoopState, Tidy, Ascending;
      ghost var start, from := Flat(chain), st.resolved;
      var physical := ChainBytes(chain);
      LoopStarts(start, from, maxBytes);
      while physical > maxBytes
        invariant Ready() && InOrder() && Tidy(chain)
        invariant st == old(st).(resolved := st.resolved)
        invariant LoopState(start, from, Flat(chain), st.resolved, maxBytes)
        invariant old(ChainBytes(chain)) <= maxBytes ==> chain == old(chain) && st == old(st)
        invariant physical == ChainBytes(chain)
        decreases physical
      {
        LoopFacts(start, from, Flat(chain), st.resolved, maxBytes);
        BytesAreLines(chain);
        ghost var rest, at := Flat(chain), st.resolved;
        var dropped;
        dropped, alive := DropOldest(start, from);
        if dropped.None? {
          NothingLeft(start, from, rest, at, maxBytes);
          return CannotReduce, true;
        }
        LoopDrops(start, from, rest, at, maxBytes);
        if !alive { return WithinBudget, false; }
        LoopGoesOn(start, from, rest, at, Flat(chain), st.resolved, maxBytes);
        physical := ChainBytes(chain);
      }
      LoopFacts(start, from, Flat(chain), st.resolved, maxBytes);
      BytesAreLines(chain);
      LoopEnds(start, from, Flat(chain), st.resolved, maxBytes);
      return WithinBudget, true;
    }

    method CompactRetaining(ghost start: seq<Line>, ghost from: nat) returns (alive: bool)
      requires Ready() && InOrder() && Tidy(chain) && Retained(start, from, Flat(chain), st.resolved)
      modifies this`chain, this`power
      ensures !alive ==> power == 0
      ensures Ready() && InOrder() && Tidy(chain) && Retained(start, from, Flat(chain), st.resolved)
      ensures alive ==> Flat(chain) == old(Unresolved(Flat(chain), st.resolved))
      ensures alive ==> ChainBytes(chain) <= old(ChainBytes(chain))
    {
      hide Flat, Retained, Tracks, Ascending, AllBelow, Unresolved;
      ghost var before, lines := chain, Flat(chain);
      var done;
      done, alive := Compact();
      RetainedByCompaction(start, from, lines, Flat(chain), st.resolved);
      if alive { CompactingGrowsNothing(before, chain, st.resolved); }
    }

    /** The working cursor may move up to any id handed out. */
    lemma CursorMoves(cursor: nat)
      requires Ready() && st.resolved <= cursor < Memory().next
      ensures Working(chain, max, posts, Copy(), Memory().(resolved := cursor))
    {
      hide Flat, AllBelow, Tracks;
      TracksResolve(Flat(chain), posts, Memory(), cursor);
    }

    /** The age loop. */
    method AgeOut(now: int, ghost start: seq<Line>, ghost from: nat)
      requires Ready() && InOrder() && Tidy(chain) && Retained(start, from, Flat(chain), st.resolved)
      modifies this`st
      ensures Ready() && InOrder() && Tidy(chain) && Retained(start, from, Flat(chain), st.resolved)
      ensures st ==
        old(st).(resolved := AgedCursor(Deliverable(Flat(chain), old(st.resolved)), old(st.resolved), now, maxAge))
      ensures NoneAged(Flat(chain), st.resolved, now, maxAge)
    {
      hide Flat, Retained, Stored, Working, AgedCursor, Ascending, Deliverable, NoneAged;
      AgingIsAllowed(now, start, from);
      var report := ScanLines(Flat(chain), st.resolved);
      ChosenIsDeliverable(Flat(chain), st.resolved);
      var records := Choose(report.value.found, st.resolved, report.value.blocked);
      var moved := AgePrune(records, st.resolved, now, maxAge);
      st := st.(resolved := moved);
    }

    /** The cursor the age loop ends at. */
    lemma AgingIsAllowed(now: int, start: seq<Line>, from: nat)
      requires Ready() && InOrder() && Tidy(chain) && Retained(start, from, Flat(chain), st.resolved)
      ensures var moved := AgedCursor(Deliverable(Flat(chain), st.resolved), st.resolved, now, maxAge);
        && Working(chain, max, posts, Copy(), Memory().(resolved := moved))
        && Retained(start, from, Flat(chain), moved) && NoneAged(Flat(chain), moved, now, maxAge)
    {
      hide Flat, Retained, HeadIsNewest, HighestIsNewest, AllBelow, Shaped, AgedCursor, Ascending, Deliverable,
        NoneAged;
      var lines, records := Flat(chain), Deliverable(Flat(chain), st.resolved);
      var moved := AgedCursor(records, st.resolved, now, maxAge);
      RetainsItself(lines, st.resolved);
      if moved != st.resolved {
        var i :| 0 <= i < |records| && Aged(records[i], now, maxAge) && records[i].id == moved;
        Droppable(records[i], start, from);
        Droppable(records[i], lines, st.resolved);
      }
      CursorMoves(moved);
      AgedOut(lines, st.resolved, moved, now, maxAge);
    }

    /** A deliverable record may be dropped: its id is above the cursor, below the next id, and past no corrupt line. */
    lemma Droppable(d: Line, start: seq<Line>, from: nat)
      requires Ready() && InOrder() && Tidy(chain) && Retained(start, from, Flat(chain), st.resolved)
      requires d in Deliverable(Flat(chain), st.resolved)
      ensures d.Readable? && d in Flat(chain) && st.resolved < d.id < Memory().next &&
        Retained(start, from, Flat(chain), d.id)
    {
      DeliverableFacts(Flat(chain), st.resolved);
      DeliverableOnDisk(Flat(chain), st.resolved, d);
      RetainedByDrop(start, from, Flat(chain), st.resolved, d);
    }

    /**
      One round of the byte loop: resolve the oldest deliverable record and compact.
      Bytes are always freed, so the round that finds nothing freed never happens.
      */
    method DropOldest(ghost start: seq<Line>, ghost from: nat) returns (dropped: Option<Line>, alive: bool)
      requires Ready() && InOrder() && Tidy(chain) && Retained(start, from, Flat(chain), st.resolved)
      modifies this`st, this`chain, this`power
      ensures !alive ==> power == 0
      ensures Ready() && InOrder() && Tidy(chain) && Retained(start, from, Flat(chain), st.resolved)
      ensures dropped.None? <==> old(Deliverable(Flat(chain), st.resolved)) == []
      ensures dropped.None? ==> alive && chain == old(chain) && st == old(st)
      ensures dropped.Some? ==>
        && dropped.value.Readable? && dropped.value == old(Deliverable(Flat(chain), st.resolved))[0]
        && st == old(st).(resolved := dropped.value.id)
      ensures dropped.Some? && alive ==>
        Flat(chain) == Unresolved(old(Flat(chain)), st.resolved) && ChainBytes(chain) < old(ChainBytes(chain))
    {
      var report := ScanLines(Flat(chain), st.resolved);
      ChosenIsDeliverable(Flat(chain), st.resolved);
      var live := Choose(report.value.found, st.resolved, report.value.blocked);
      if live == [] { return None, true; }
      alive := DropAndCompact(live[0], start, from);
      dropped := Some(live[0]);
    }

    method DropAndCompact(d: Line, ghost start: seq<Line>, ghost from: nat) returns (alive: bool)
      requires Ready() && InOrder() && Tidy(chain) && Retained(start, from, Flat(chain), st.resolved)
      requires d in Deliverable(Flat(chain), st.resolved)
      modifies this`st, this`chain, this`power
      ensures !alive ==> power == 0
      ensures Ready() && InOrder() && Tidy(chain) && Retained(start, from, Flat(chain), st.resolved)
      ensures d.Readable? && st == old(st).(resolved := d.id)
      ensures alive ==>
        Flat(chain) == Unresolved(old(Flat(chain)), st.resolved) && ChainBytes(chain) < old(ChainBytes(chain))
    {
      hide Flat, Retained, Tracks, Working, Ascending, Unresolved, Deliverable;
      ghost var before := chain;
      Droppable(d, start, from);
      CursorMoves(d.id);
      st := st.(resolved := d.id);
      alive := CompactRetaining(start, from);
      if alive { DroppingFrees(before, chain, d.id, d); }
    }

    /** Storage decays: a readable line anywhere loses its payload but not its id. */
    method Rot(k: nat, i: nat)
      requires k < |chain| && chain[k].Some? && i < |chain[k].value.lines|
      modifies this`chain
      ensures chain == old(chain)[k := Some(RottenFile(old(chain)[k].value, i))]
      ensures old(DiskOk()) ==> DiskOk() && InOrder() == old(InOrder()) && Torn() == old(Torn())
      ensures old(Ready()) ==> Ready()
    {
      if DiskOk() { StoredRotten(chain, max, Cap(), posts, Copy(), k, i); }
      if Ready() {
        FlatRotten(chain, k, i);
        SameIdsKeeps(Flat(chain), Flat(chain[k := Some(RottenFile(chain[k].value, i))]), posts, Memory());
      }
      chain := chain[k := Some(RottenFile(chain[k].value, i))];
    }
  }

  lemma LiveIsBelow(lines: seq<Line>, cursor: nat, id: nat, next: nat)
    requires Live(lines, cursor, id) && AllBelow(lines, next)
    ensures id < next
  {
  }

  lemma {:induction false} EmptyFlat(c: Chain)
    requires forall k :: 0 <= k < |c| ==> c[k].None?
    ensures Flat(c) == []
  {
    if c != [] { EmptyFlat(c[1..]); }
  }

  lemma EmptyChain(c: Chain, max: nat, cap: nat)
    requires 1 <= max && |c| == max + 1 && RECORD_MAX_BYTES <= cap && forall k :: 0 <= k < |c| ==> c[k].None?
    ensures Flat(c) == [] && Stored(c, max, cap, map[], Lead(INITIAL, 0))
  {
    assert c[0].None?;
    EmptyFlat(c);
  }
}
