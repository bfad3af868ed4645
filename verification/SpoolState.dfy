/**
  The spool's cursor file (monitor-v2/remote_probe/spool.py) as a value: what a
  copy of it, in memory or saved, owes the records that are on disk.
  */
module SpoolState {
  import opened Prelude
  import opened SpoolChain

  const MAX_TRACKED_RETRIES := 4096

  datatype Attempt = Attempt(id: nat, count: nat)

  /** The cursor file: next id, cursor, and the retry table in insertion order. */
  datatype State = State(next: nat, resolved: nat, attempts: seq<Attempt>)

  const INITIAL := State(1, 0, [])

  function CountOf(attempts: seq<Attempt>, id: nat): nat {
    if attempts == [] then 0
    else if attempts[0].id == id then attempts[0].count
    else CountOf(attempts[1..], id)
  }

  /** `retry_attempts[id] += 1`, at its place in the table or at the end. */
  function Charged(attempts: seq<Attempt>, id: nat): seq<Attempt> {
    if attempts == [] then [Attempt(id, 1)]
    else if attempts[0].id == id then [Attempt(id, attempts[0].count + 1)] + attempts[1..]
    else [attempts[0]] + Charged(attempts[1..], id)
  }

  function Trimmed(attempts: seq<Attempt>): seq<Attempt> {
    if |attempts| > MAX_TRACKED_RETRIES then attempts[|attempts| - MAX_TRACKED_RETRIES..] else attempts
  }

  function Without(attempts: seq<Attempt>, id: nat): seq<Attempt> {
    if attempts == [] then []
    else (if attempts[0].id == id then [] else [attempts[0]]) + Without(attempts[1..], id)
  }

  /** How often a record has been posted; history, not storage. */
  type Posts = map<nat, nat>

  function PostsOf(posts: Posts, id: nat): nat { if id in posts then posts[id] else 0 }

  // ---------------------------------------------------------------- the retry table

  /** An unresolved record that can still be delivered is on disk under this id. */
  predicate Live(lines: seq<Line>, cursor: nat, id: nat) {
    cursor < id && exists i :: 0 <= i < |lines| && lines[i].Readable? && lines[i].id == id
  }

  /** No deliverable unresolved record has a smaller id. */
  predicate Least(lines: seq<Line>, cursor: nat, id: nat) {
    forall i :: 0 <= i < |lines| && lines[i].Readable? && cursor < lines[i].id ==> id <= lines[i].id
  }

  predicate Distinct(attempts: seq<Attempt>) {
    forall i, j :: 0 <= i < j < |attempts| ==> attempts[i].id != attempts[j].id
  }

  /** Only the head of the queue can have an entry that matters, and it is the newest entry. */
  predicate HeadIsNewest(lines: seq<Line>, s: State) {
    forall i :: 0 <= i < |s.attempts| && Live(lines, s.resolved, s.attempts[i].id) ==>
      i == |s.attempts| - 1 && Least(lines, s.resolved, s.attempts[i].id)
  }

  /** Every unresolved record's count covers the posts ever made for it. */
  predicate Covers(lines: seq<Line>, posts: Posts, s: State) {
    forall i :: 0 <= i < |lines| && lines[i].Readable? && s.resolved < lines[i].id ==>
      PostsOf(posts, lines[i].id) <= CountOf(s.attempts, lines[i].id)
  }

  /** An unresolved entry of the highest id there can be is the newest one, and nothing deliverable comes before it. */
  predicate HighestIsNewest(lines: seq<Line>, s: State) {
    forall i :: 0 <= i < |s.attempts| && s.attempts[i].id + 1 == s.next && s.resolved < s.attempts[i].id ==>
      i == |s.attempts| - 1 && Least(lines, s.resolved, s.attempts[i].id)
  }

  /** What a copy of the state, in memory or saved, owes the records on disk. */
  predicate Tracks(lines: seq<Line>, posts: Posts, s: State) {
    && s.resolved < s.next
    && |s.attempts| <= MAX_TRACKED_RETRIES && Distinct(s.attempts)
    && (forall i :: 0 <= i < |s.attempts| ==> s.attempts[i].id < s.next)
    && HeadIsNewest(lines, s) && HighestIsNewest(lines, s)
    && Covers(lines, posts, s)
  }

  /** Every id that can be recovered is below this one. */
  predicate AllBelow(lines: seq<Line>, next: nat) {
    forall i :: 0 <= i < |lines| && !lines[i].Lost? ==> lines[i].id < next
  }

  /**
    A copy of the state with its next id moved up past the line a failed append left, if
    it left one (`lag` is one) without handing the id out.
    */
  function Lead(s: State, lag: nat): State { s.(next := s.next + lag) }

  /** Lines may disappear or rot without upsetting a copy of the state. */
  lemma TracksFewer(lines: seq<Line>, lines': seq<Line>, posts: Posts, s: State)
    requires Tracks(lines, posts, s)
    requires forall i :: 0 <= i < |lines'| && lines'[i].Readable? ==> lines'[i] in lines
    requires forall i :: 0 <= i < |s.attempts| && Live(lines', s.resolved, s.attempts[i].id) ==>
      Live(lines, s.resolved, s.attempts[i].id)
    ensures Tracks(lines', posts, s)
  {
  }

  lemma LiveWithin(lines: seq<Line>, lines': seq<Line>, cursor: nat, id: nat)
    requires forall i :: 0 <= i < |lines'| && lines'[i].Readable? ==> lines'[i] in lines
    ensures Live(lines', cursor, id) ==> Live(lines, cursor, id)
  {
    if Live(lines', cursor, id) {
      var i :| 0 <= i < |lines'| && lines'[i].Readable? && lines'[i].id == id;
      assert lines'[i] in lines;
    }
  }

  lemma TracksThinned(lines: seq<Line>, lines': seq<Line>, posts: Posts, s: State)
    requires Tracks(lines, posts, s)
    requires forall i :: 0 <= i < |lines'| && lines'[i].Readable? ==> lines'[i] in lines
    ensures Tracks(lines', posts, s)
  {
    forall i | 0 <= i < |s.attempts| && Live(lines', s.resolved, s.attempts[i].id)
      ensures Live(lines, s.resolved, s.attempts[i].id)
    {
      LiveWithin(lines, lines', s.resolved, s.attempts[i].id);
    }
    TracksFewer(lines, lines', posts, s);
  }

  lemma LeastAppend(lines: seq<Line>, cursor: nat, id: nat, line: Line)
    requires Least(lines, cursor, id) && line.Readable? && id <= line.id
    ensures Least(lines + [line], cursor, id)
  {
  }

  /** A record with an id at or above the highest any copy knows upsets none of them. */
  lemma TracksAppend(lines: seq<Line>, posts: Posts, s: State, line: Line)
    requires Tracks(lines, posts, s) && line.Readable? && s.next <= line.id + 1
    ensures Tracks(lines + [line], posts[line.id := 0], s)
  {
    var more := lines + [line];
    forall i | 0 <= i < |s.attempts| && (Live(more, s.resolved, s.attempts[i].id) ||
                                         (s.attempts[i].id + 1 == s.next && s.resolved < s.attempts[i].id))
      ensures i == |s.attempts| - 1 && Least(more, s.resolved, s.attempts[i].id)
    {
      if s.attempts[i].id + 1 != s.next {
        var k :| 0 <= k < |more| && more[k].Readable? && more[k].id == s.attempts[i].id;
        assert k < |lines| && lines[k] == more[k];
        assert Live(lines, s.resolved, s.attempts[i].id);
      }
      LeastAppend(lines, s.resolved, s.attempts[i].id, line);
    }
    forall i | 0 <= i < |more| && more[i].Readable? && s.resolved < more[i].id
      ensures PostsOf(posts[line.id := 0], more[i].id) <= CountOf(s.attempts, more[i].id)
    {
      if i < |lines| { assert more[i] == lines[i]; }
    }
  }

  /** Moving the cursor up, to an id already handed out, keeps the table in order. */
  lemma TracksResolve(lines: seq<Line>, posts: Posts, s: State, cursor: nat)
    requires Tracks(lines, posts, s) && s.resolved <= cursor < s.next
    ensures Tracks(lines, posts, s.(resolved := cursor))
  {
    var t := s.(resolved := cursor);
    forall i | 0 <= i < |s.attempts| && (Live(lines, cursor, s.attempts[i].id) ||
                                         (s.attempts[i].id + 1 == s.next && cursor < s.attempts[i].id))
      ensures i == |s.attempts| - 1 && Least(lines, cursor, s.attempts[i].id)
    {
      if s.attempts[i].id + 1 != s.next { assert Live(lines, s.resolved, s.attempts[i].id); }
    }
  }

  lemma {:induction false} Origin(attempts: seq<Attempt>, id: nat, i: nat) returns (j: nat)
    requires i < |Without(attempts, id)|
    ensures j < |attempts| && attempts[j] == Without(attempts, id)[i] && attempts[j].id != id
  {
    if attempts[0].id == id {
      var k := Origin(attempts[1..], id, i);
      j := k + 1;
    } else if i == 0 {
      j := 0;
    } else {
      var k := Origin(attempts[1..], id, i - 1);
      j := k + 1;
    }
  }

  lemma {:induction false} WithoutDistinct(attempts: seq<Attempt>, id: nat)
    requires Distinct(attempts)
    ensures |Without(attempts, id)| <= |attempts| && Distinct(Without(attempts, id))
  {
    if attempts != [] {
      var rest := Without(attempts[1..], id);
      DistinctTail(attempts);
      WithoutDistinct(attempts[1..], id);
      forall i | 0 <= i < |rest| ensures rest[i].id != attempts[0].id {
        var j := Origin(attempts[1..], id, i);
        assert attempts[j + 1].id != attempts[0].id;
      }
    }
  }

  lemma {:induction false} WithoutCounts(attempts: seq<Attempt>, id: nat, x: nat)
    requires x != id
    ensures CountOf(Without(attempts, id), x) == CountOf(attempts, x)
  {
    if attempts != [] {
      var rest := Without(attempts[1..], id);
      WithoutCounts(attempts[1..], id, x);
      if attempts[0].id != id { assert ([attempts[0]] + rest)[1..] == rest; } else { assert [] + rest == rest; }
    }
  }

  lemma DistinctTail(attempts: seq<Attempt>)
    requires attempts != [] && Distinct(attempts)
    ensures Distinct(attempts[1..])
  {
    forall i, j | 0 <= i < j < |attempts[1..]| ensures attempts[1..][i].id != attempts[1..][j].id {
      assert attempts[i + 1].id != attempts[j + 1].id;
    }
  }

  lemma {:induction false} WithoutKeepsLast(attempts: seq<Attempt>, id: nat)
    requires attempts != [] && attempts[|attempts| - 1].id != id
    ensures var rest := Without(attempts, id); rest != [] && rest[|rest| - 1] == attempts[|attempts| - 1]
  {
    if |attempts| > 1 { WithoutKeepsLast(attempts[1..], id); }
  }

  /** Dropping an entry no record needs keeps the table in order. */
  lemma TracksForget(lines: seq<Line>, posts: Posts, s: State, id: nat)
    requires Tracks(lines, posts, s) && !Live(lines, s.resolved, id)
    ensures Tracks(lines, posts, s.(attempts := Without(s.attempts, id)))
  {
    var kept := Without(s.attempts, id);
    WithoutDistinct(s.attempts, id);
    forall x | x != id ensures CountOf(kept, x) == CountOf(s.attempts, x) { WithoutCounts(s.attempts, id, x); }
    forall i | 0 <= i < |kept|
      ensures kept[i].id < s.next
      ensures Live(lines, s.resolved, kept[i].id) || (kept[i].id + 1 == s.next && s.resolved < kept[i].id) ==>
        i == |kept| - 1 && Least(lines, s.resolved, kept[i].id)
    {
      var j := Origin(s.attempts, id, i);
      if j == |s.attempts| - 1 { WithoutKeepsLast(s.attempts, id); }
    }
  }

  /** The entries of deliverable records: what reconciliation keeps. */
  function KeepLive(attempts: seq<Attempt>, lines: seq<Line>, cursor: nat): seq<Attempt> {
    if attempts == [] then []
    else (if Live(lines, cursor, attempts[0].id) then [attempts[0]] else []) + KeepLive(attempts[1..], lines, cursor)
  }

  lemma {:induction false} KeepLiveFacts(attempts: seq<Attempt>, lines: seq<Line>, cursor: nat)
    ensures |KeepLive(attempts, lines, cursor)| <= |attempts|
    ensures forall i :: 0 <= i < |KeepLive(attempts, lines, cursor)| ==>
      KeepLive(attempts, lines, cursor)[i] in attempts && Live(lines, cursor, KeepLive(attempts, lines, cursor)[i].id)
    ensures forall x :: Live(lines, cursor, x) ==> CountOf(KeepLive(attempts, lines, cursor), x) == CountOf(attempts, x)
  {
    if attempts != [] {
      KeepLiveFacts(attempts[1..], lines, cursor);
      var rest := KeepLive(attempts[1..], lines, cursor);
      if Live(lines, cursor, attempts[0].id) {
        assert ([attempts[0]] + rest)[1..] == rest;
      } else {
        assert [] + rest == rest;
      }
    }
  }

  lemma {:induction false} KeepLiveAtMostOne(attempts: seq<Attempt>, lines: seq<Line>, cursor: nat)
    requires forall i :: 0 <= i < |attempts| && Live(lines, cursor, attempts[i].id) ==> i == |attempts| - 1
    ensures |KeepLive(attempts, lines, cursor)| <= 1
  {
    if |attempts| > 1 {
      assert !Live(lines, cursor, attempts[0].id);
      assert forall i :: 0 <= i < |attempts[1..]| ==> attempts[1..][i] == attempts[i + 1];
      KeepLiveAtMostOne(attempts[1..], lines, cursor);
    }
  }

  lemma TracksReconciled(lines: seq<Line>, posts: Posts, s: State)
    requires Tracks(lines, posts, s)
    ensures Tracks(lines, posts, s.(attempts := KeepLive(s.attempts, lines, s.resolved)))
  {
    var kept := KeepLive(s.attempts, lines, s.resolved);
    KeepLiveFacts(s.attempts, lines, s.resolved);
    KeepLiveAtMostOne(s.attempts, lines, s.resolved);
    forall i | 0 <= i < |kept| ensures kept[i].id < s.next && Least(lines, s.resolved, kept[i].id) {
      var j :| 0 <= j < |s.attempts| && s.attempts[j] == kept[i];
    }
    forall i | 0 <= i < |lines| && lines[i].Readable? && s.resolved < lines[i].id
      ensures PostsOf(posts, lines[i].id) <= CountOf(kept, lines[i].id)
    {
      assert Live(lines, s.resolved, lines[i].id);
    }
  }

  lemma {:induction false} Uncounted(attempts: seq<Attempt>, id: nat)
    requires forall i :: 0 <= i < |attempts| ==> attempts[i].id != id
    ensures CountOf(attempts, id) == 0
    ensures Charged(attempts, id) == attempts + [Attempt(id, 1)]
  {
    if attempts != [] { Uncounted(attempts[1..], id); }
  }

  /** The table knows one more attempt of this record, and nothing else has changed but what a full table gives up. */
  ghost predicate CountedOnce(table: seq<Attempt>, before: seq<Attempt>, id: nat, count: nat) {
    && (forall a :: a in before && a.id == id ==> count == a.count + 1)
    && ((forall a :: a in before ==> a.id != id) ==> count == 1)
    && (forall a :: a in table && a.id == id <==> a == Attempt(id, count))
    && (forall a :: a in table && a.id != id ==> a in before)
    && (forall a :: a in before && a.id != id && a !in table ==> |before| == 4096 && a == before[0] && count == 1)
  }

  lemma {:induction false} ChargedMembers(attempts: seq<Attempt>, id: nat)
    requires Distinct(attempts)
    ensures forall a :: a in attempts && a.id == id ==> a.count == CountOf(attempts, id)
    ensures (forall a :: a in attempts ==> a.id != id) ==> CountOf(attempts, id) == 0
    ensures forall a :: a in Charged(attempts, id) <==>
      (a in attempts && a.id != id) || a == Attempt(id, CountOf(attempts, id) + 1)
    ensures |Charged(attempts, id)| > |attempts| ==> forall a :: a in attempts ==> a.id != id
    ensures |Charged(attempts, id)| <= |attempts| + 1
  {
    if attempts != [] {
      DistinctTail(attempts);
      ChargedMembers(attempts[1..], id);
      assert forall a :: a in attempts <==> a == attempts[0] || a in attempts[1..];
      forall a | a in attempts[1..] ensures a.id != attempts[0].id {
        var i :| 0 <= i < |attempts[1..]| && attempts[1..][i] == a;
        assert attempts[i + 1] == a;
      }
    }
  }

  lemma ChargeIsExact(attempts: seq<Attempt>, id: nat)
    requires Distinct(attempts) && |attempts| <= MAX_TRACKED_RETRIES
    ensures CountedOnce(Trimmed(Charged(attempts, id)), attempts, id, CountOf(attempts, id) + 1)
    ensures CountOf(Trimmed(Charged(attempts, id)), id) == CountOf(attempts, id) + 1
  {
    hide Charged, Distinct;
    ChargedMembers(attempts, id);
    if |Charged(attempts, id)| > MAX_TRACKED_RETRIES {
      Uncounted(attempts, id);
      assert Trimmed(attempts + [Attempt(id, 1)]) == attempts[1..] + [Attempt(id, 1)];
      FullTable(attempts, attempts[1..], Attempt(id, 1));
    } else {
      ChargedCounts(attempts, id);
    }
  }

  /** A full table gives up its oldest entry for a new one. */
  lemma FullTable(attempts: seq<Attempt>, kept: seq<Attempt>, added: Attempt)
    requires |attempts| == 4096 && kept == attempts[1..] && added.count == 1
    requires forall a :: a in attempts ==> a.id != added.id
    ensures CountedOnce(kept + [added], attempts, added.id, 1) && CountOf(kept + [added], added.id) == 1
  {
    hide CountOf;
    assert forall a :: a in attempts <==> a == attempts[0] || a in kept;
    assert forall a :: a in kept + [added] <==> a in kept || a == added;
    forall i | 0 <= i < |kept| ensures kept[i].id != added.id { assert kept[i] in kept; }
    CountAtEnd(kept, added);
  }

  lemma {:induction false} ChargedCounts(attempts: seq<Attempt>, id: nat)
    ensures CountOf(Charged(attempts, id), id) == CountOf(attempts, id) + 1
  {
    if attempts != [] && attempts[0].id != id {
      ChargedCounts(attempts[1..], id);
      assert ([attempts[0]] + Charged(attempts[1..], id))[1..] == Charged(attempts[1..], id);
    }
  }

  /** The table has lost the entry of this record, and only that. */
  ghost predicate Uncharged(table: seq<Attempt>, before: seq<Attempt>, id: nat) {
    forall a :: a in table <==> a in before && a.id != id
  }

  lemma {:induction false} WithoutIsExact(attempts: seq<Attempt>, id: nat)
    ensures Uncharged(Without(attempts, id), attempts, id)
  {
    if attempts != [] {
      WithoutIsExact(attempts[1..], id);
      assert forall a :: a in attempts <==> a == attempts[0] || a in attempts[1..];
    }
  }

  /** The table holds exactly the entries of before whose records can still be delivered. */
  ghost predicate OnlyLive(table: seq<Attempt>, before: seq<Attempt>, lines: seq<Line>, cursor: nat) {
    forall a :: a in table <==> a in before && Live(lines, cursor, a.id)
  }

  lemma {:induction false} KeepLiveIsExact(attempts: seq<Attempt>, lines: seq<Line>, cursor: nat)
    ensures OnlyLive(KeepLive(attempts, lines, cursor), attempts, lines, cursor)
  {
    hide Live;
    if attempts != [] {
      KeepLiveIsExact(attempts[1..], lines, cursor);
      assert forall a :: a in attempts <==> a == attempts[0] || a in attempts[1..];
    }
  }

  lemma {:induction false} ChargedLast(attempts: seq<Attempt>, id: nat)
    requires attempts != [] && Distinct(attempts) && attempts[|attempts| - 1].id == id
    ensures CountOf(attempts, id) == attempts[|attempts| - 1].count
    ensures Charged(attempts, id) == attempts[|attempts| - 1 := Attempt(id, CountOf(attempts, id) + 1)]
  {
    if |attempts| > 1 {
      var rest := attempts[1..];
      assert attempts[0].id != id && rest[|rest| - 1] == attempts[|attempts| - 1];
      DistinctTail(attempts);
      ChargedLast(rest, id);
    }
  }

  lemma {:induction false} CountAtEnd(attempts: seq<Attempt>, a: Attempt)
    requires forall i :: 0 <= i < |attempts| ==> attempts[i].id != a.id
    ensures CountOf(attempts + [a], a.id) == a.count
  {
    if attempts != [] {
      assert (attempts + [a])[1..] == attempts[1..] + [a];
      CountAtEnd(attempts[1..], a);
    }
  }

  /** A table whose last entry is the head's, with its count, and whose other entries were there before. */
  predicate HeadLast(table: seq<Attempt>, from: seq<Attempt>, id: nat, count: nat) {
    && table != [] && |table| <= MAX_TRACKED_RETRIES && table[|table| - 1] == Attempt(id, count)
    && (forall i :: 0 <= i < |table| - 1 ==> table[i] in from && table[i].id != id)
    && Distinct(table)
  }

  lemma HeadLastCounts(table: seq<Attempt>, from: seq<Attempt>, id: nat, count: nat)
    requires HeadLast(table, from, id, count)
    ensures CountOf(table, id) == count
  {
    var n := |table| - 1;
    assert table == table[..n] + [table[n]];
    CountAtEnd(table[..n], table[n]);
  }

  /** Charging an id whose entry is the newest. */
  lemma ChargedNewest(a: seq<Attempt>, id: nat)
    requires a != [] && |a| <= MAX_TRACKED_RETRIES && Distinct(a) && a[|a| - 1].id == id
    ensures HeadLast(Trimmed(Charged(a, id)), a, id, CountOf(a, id) + 1)
  {
    ChargedLast(a, id);
    var table := Charged(a, id);
    forall i | 0 <= i < |a| - 1 ensures table[i] in a && table[i].id != id { assert table[i] == a[i]; }
  }

  /** Charging an id without an entry: it becomes the newest, so trimming does not lose it. */
  lemma ChargedFresh(a: seq<Attempt>, id: nat)
    requires |a| <= MAX_TRACKED_RETRIES && Distinct(a) && forall i :: 0 <= i < |a| ==> a[i].id != id
    ensures HeadLast(Trimmed(Charged(a, id)), a, id, CountOf(a, id) + 1)
  {
    hide CountOf, Charged, HeadLast;
    Uncounted(a, id);
    if |a| < MAX_TRACKED_RETRIES {
      AppendedLast(a, 0, id);
      assert a[0..] == a;
    } else {
      AppendedLast(a, 1, id);
      assert (a + [Attempt(id, 1)])[1..] == a[1..] + [Attempt(id, 1)];
    }
  }

  lemma AppendedLast(a: seq<Attempt>, d: nat, id: nat)
    requires d <= |a| <= MAX_TRACKED_RETRIES + d - 1 && Distinct(a) && forall i :: 0 <= i < |a| ==> a[i].id != id
    ensures HeadLast(a[d..] + [Attempt(id, 1)], a, id, 1)
  {
  }

  /** Charging the head: its entry is the newest, so trimming never loses it. */
  lemma ChargedHead(lines: seq<Line>, posts: Posts, s: State, id: nat)
    requires Tracks(lines, posts, s) && Live(lines, s.resolved, id) && Least(lines, s.resolved, id)
    ensures HeadLast(Trimmed(Charged(s.attempts, id)), s.attempts, id, CountOf(s.attempts, id) + 1)
  {
    if i :| 0 <= i < |s.attempts| && s.attempts[i].id == id {
      assert i == |s.attempts| - 1;
      ChargedNewest(s.attempts, id);
    } else {
      ChargedFresh(s.attempts, id);
    }
  }

  lemma NoOtherLive(lines: seq<Line>, posts: Posts, s: State, id: nat)
    requires Tracks(lines, posts, s) && Live(lines, s.resolved, id) && Least(lines, s.resolved, id)
    ensures forall i :: 0 <= i < |s.attempts| && Live(lines, s.resolved, s.attempts[i].id) ==> s.attempts[i].id == id
  {
  }

  lemma CoversCharge(lines: seq<Line>, posts: Posts, s: State, table: seq<Attempt>, id: nat)
    requires Covers(lines, posts, s) && Live(lines, s.resolved, id)
    requires CountOf(table, id) == CountOf(s.attempts, id) + 1
    requires forall i :: 0 <= i < |s.attempts| && Live(lines, s.resolved, s.attempts[i].id) ==> s.attempts[i].id == id
    ensures Covers(lines, posts[id := PostsOf(posts, id) + 1], s.(attempts := table))
    ensures Covers(lines, posts, s.(attempts := table))
  {
    hide CountOf;
    forall i | 0 <= i < |lines| && lines[i].Readable? && s.resolved < lines[i].id
      ensures PostsOf(posts, lines[i].id) + (if lines[i].id == id then 1 else 0) <= CountOf(table, lines[i].id)
    {
      var x := lines[i].id;
      assert Live(lines, s.resolved, x);
      if x != id { Uncounted(s.attempts, x); }
    }
  }

  /** An unresolved entry of the highest id there can be is the head's own. */
  lemma HighestIsHead(lines: seq<Line>, posts: Posts, s: State, id: nat)
    requires Tracks(lines, posts, s) && Live(lines, s.resolved, id) && id < s.next
    ensures forall i :: 0 <= i < |s.attempts| && s.attempts[i].id + 1 == s.next && s.resolved < s.attempts[i].id ==>
      s.attempts[i].id == id
  {
    var k :| 0 <= k < |lines| && lines[k].Readable? && lines[k].id == id;
  }

  /** Only the head is charged, so an unresolved entry of the highest id stays the newest. */
  lemma HighestCharged(lines: seq<Line>, posts: Posts, s: State, table: seq<Attempt>, id: nat, count: nat)
    requires Tracks(lines, posts, s) && Live(lines, s.resolved, id) && Least(lines, s.resolved, id) && id < s.next
    requires HeadLast(table, s.attempts, id, count)
    ensures HighestIsNewest(lines, s.(attempts := table))
  {
    hide Covers, HeadIsNewest;
    HighestIsHead(lines, posts, s, id);
  }

  /** After the charge the table covers one more post of the head. */
  lemma TracksCharge(lines: seq<Line>, posts: Posts, s: State, id: nat)
    requires Tracks(lines, posts, s) && Live(lines, s.resolved, id) && Least(lines, s.resolved, id) && id < s.next
    ensures Tracks(lines, posts[id := PostsOf(posts, id) + 1], s.(attempts := Trimmed(Charged(s.attempts, id))))
    ensures Tracks(lines, posts, s.(attempts := Trimmed(Charged(s.attempts, id))))
  {
    hide CountOf, Charged, Trimmed, Covers, PostsOf, HighestIsNewest;
    var table := Trimmed(Charged(s.attempts, id));
    ChargedHead(lines, posts, s, id);
    HeadLastCounts(table, s.attempts, id, CountOf(s.attempts, id) + 1);
    NoOtherLive(lines, posts, s, id);
    CoversCharge(lines, posts, s, table, id);
    HighestCharged(lines, posts, s, table, id, CountOf(s.attempts, id) + 1);
  }

  // ---------------------------------------------------------------- storage as a whole

  /** What every step leaves: a chain within its bounds, and a saved copy that tracks it. */
  predicate Stored(c: Chain, max: nat, cap: nat, posts: Posts, saved: State) {
    Shaped(c, max, cap) && RECORD_MAX_BYTES <= cap && Tracks(Flat(c), posts, saved)
  }

  /** The working state of a process that has opened the spool. */
  predicate Working(c: Chain, max: nat, posts: Posts, saved: State, st: State) {
    && |c| == max + 1
    && Tracks(Flat(c), posts, st) && AllBelow(Flat(c), st.next)
    && saved.next <= st.next && saved.resolved <= st.resolved
  }

  /** Every line of the first whose id is known is a line of the second. */
  predicate KnownWithin(a: seq<Line>, b: seq<Line>) {
    forall l :: l in a && !l.Lost? ==> l in b
  }

  /** Losing lines, in any way that keeps the shape, keeps both. */
  lemma StoredThinned(c: Chain, c': Chain, max: nat, cap: nat, posts: Posts, saved: State)
    requires Stored(c, max, cap, posts, saved)
    requires Shaped(c', max, cap) && KnownWithin(Flat(c'), Flat(c))
    ensures Stored(c', max, cap, posts, saved)
  {
    TracksThinned(Flat(c), Flat(c'), posts, saved);
  }

  lemma WorkingThinned(c: Chain, c': Chain, max: nat, posts: Posts, saved: State, st: State)
    requires Working(c, max, posts, saved, st) && |c'| == |c|
    requires KnownWithin(Flat(c'), Flat(c))
    ensures Working(c', max, posts, saved, st)
  {
    TracksThinned(Flat(c), Flat(c'), posts, st);
    forall i | 0 <= i < |Flat(c')| && !Flat(c')[i].Lost? ensures Flat(c')[i].id < st.next {
      assert Flat(c')[i] in Flat(c);
    }
  }

  // ---------------------------------------------------------------- rotation keeps the shape

  lemma ShapedShift(c: Chain, max: nat, cap: nat, j: nat)
    requires Shaped(c, max, cap) && 0 < j <= max && c[max].Some?
    requires j == max ==> c[0].None? && !c[max].value.tail.Part?
    ensures Shaped(Shift(c, j), max, cap)
  {
    assert Shift(c, j)[j].None?;
  }

  lemma ShapedUnlink(c: Chain, max: nat, cap: nat)
    requires Shaped(c, max, cap)
    ensures Shaped(c[0 := None], max, cap)
  {
    assert c[0 := None][0].None?;
  }

  lemma ShapedCurrent(c: Chain, max: nat, cap: nat, f: File)
    requires Shaped(c, max, cap) && FullBytes(Some(f)) <= cap
    ensures Shaped(c[max := Some(f)], max, cap)
  {
    var d := c[max := Some(f)];
    if 2 <= max {
      if c[max].None? {
        assert d[0].None?;
      } else {
        var k :| 0 <= k < |c| && c[k].None?;
        assert d[k].None?;
      }
    }
  }

  /** One rotation rename, of file `j` over the place before it, drops at most the oldest file's lines. */
  lemma ShiftDropsOldest(c: Chain, j: nat)
    requires 0 < j < |c| && (j > 1 ==> c[j - 1].None?)
    ensures IsSuffix(Flat(Shift(c, j)), Flat(c))
  {
    if j > 1 || c[0].None? {
      ShiftIntoFree(c, j);
    } else {
      ShiftOverOldest(c);
      ShiftIntoFree(c[0 := None], 1);
      UnlinkOldest(c);
    }
  }

  /**
    A rotated chain: every file one place older, those in the two oldest places gone, the
    current place free. With a single place for rotated files only that one is given up.
    */
  function Rotated(c: Chain): Chain
    requires 2 <= |c|
  {
    if |c| == 2 then Shift(c[0 := None], 1) else [None] + c[2..] + [None]
  }

  lemma RotatedIsFree(c: Chain)
    requires 2 <= |c|
    ensures |Rotated(c)| == |c| && Rotated(c)[|c| - 1].None?
  {
  }

  /** A rotation that has freed the places below `j`. */
  predicate Shifting(from: Chain, c: Chain, j: nat) {
    && |c| == |from| && 1 <= j < |c|
    && (forall k :: 1 <= k < j - 1 ==> c[k] == from[k + 1])
    && (forall k :: j <= k < |c| ==> c[k] == from[k])
    && (j > 1 ==> c[j - 1].None?)
  }

  lemma ShiftingStep(from: Chain, c: Chain, j: nat)
    requires Shifting(from, c, j) && j + 1 < |c|
    ensures Shifting(from, if c[j].Some? then Shift(c, j) else c, j + 1)
  {
  }

  lemma ShiftingEnd(from: Chain, c: Chain, max: nat)
    requires Shifting(from, c, max) && 1 <= max && |c| == max + 1
    ensures Shift(Sealed(c[0 := None], max), max) == Rotated(Sealed(from, max))
  {
    var d, r := Shift(Sealed(c[0 := None], max), max), Rotated(Sealed(from, max));
    forall k | 0 <= k < |d| ensures d[k] == r[k] {
      if 1 <= k < max - 1 { assert r[k] == from[k + 1]; }
    }
  }

  /** The complete lines of the current file. */
  function CurrentLines(c: Chain, max: nat): seq<Line>
    requires |c| == max + 1
  {
    if c[max].Some? then c[max].value.lines else []
  }

  /** What the current file ends in. */
  function TailOf(c: Chain, max: nat): Tail
    requires |c| == max + 1
  {
    if c[max].Some? then c[max].value.tail else Ended
  }

  /** The chain with another end of the current file. */
  function Ending(c: Chain, max: nat, tail: Tail): (d: Chain)
    requires |c| == max + 1
    ensures |d| == |c|
  {
    c[max := Some(File(CurrentLines(c, max), tail))]
  }

  /** The chain as the repair of the tail leaves it. */
  function Mended(c: Chain, max: nat): (d: Chain)
    requires |c| == max + 1
    ensures |d| == |c|
  {
    if TailOf(c, max).Ended? then c else Ending(c, max, Ended)
  }

  /** A part of a line that is no longer at the end of the current file counts as a line without an id. */
  function Sealed(c: Chain, max: nat): (d: Chain)
    requires |c| == max + 1
    ensures |d| == |c|
  {
    var t := TailOf(c, max);
    if t.Part? then c[max := Some(File(CurrentLines(c, max) + [Lost(t.bytes)], Ended))] else c
  }

  /** The chain with room for one more line: rotated exactly if the current file would outgrow its budget. */
  function MadeRoom(c: Chain, max: nat, fileBytes: nat, size: nat): Chain
    requires |c| == max + 1 && 1 <= max
    ensures |MadeRoom(c, max, fileBytes, size)| == max + 1
  {
    if c[max].Some? && FileBytes(c[max]) + size > fileBytes then Rotated(Sealed(c, max)) else c
  }

  /** The line as it comes to stand after what the file ended in: run together with it if that has no newline. */
  function After(tail: Tail, line: Line): Line {
    if tail.Ended? then line else Lost(TailBytes(tail) + line.size)
  }

  /** The chain with the line written at the end of the current file. */
  function Written(c: Chain, max: nat, line: Line): (d: Chain)
    requires |c| == max + 1
    ensures |d| == |c|
  {
    c[max := Some(File(CurrentLines(c, max) + [After(TailOf(c, max), line)], Ended))]
  }

  /** What a file ends in once the first bytes of a line, but not all, have been written to it. */
  function Begun(tail: Tail, line: Line, more: nat): (t: Tail)
    requires 0 < more < line.size
    ensures TailBytes(t) == TailBytes(tail) + more
    ensures t.Unended? ==> tail.Ended? && t.line == line
  {
    if tail.Ended? && more == line.size - 1 then Unended(line) else Part(TailBytes(tail) + more)
  }

  /** What a write that has failed may leave: nothing, the whole line, or its first bytes. */
  predicate LeftBy(c: Chain, d: Chain, max: nat, line: Line)
    requires |c| == max + 1
  {
    || d == c || d == Written(c, max, line)
    || exists more :: 0 < more < line.size && d == Ending(c, max, Begun(TailOf(c, max), line, more))
  }

  /** The chain after one append. */
  function Grown(c: Chain, max: nat, fileBytes: nat, line: Line): Chain
    requires |c| == max + 1 && 1 <= max
    ensures |Grown(c, max, fileBytes, line)| == max + 1
  {
    Written(MadeRoom(c, max, fileBytes, line.size), max, line)
  }

  lemma SuffixIsWithin(a: seq<Line>, b: seq<Line>)
    requires IsSuffix(a, b)
    ensures Within(a, b)
  {
    forall l | l in a ensures l in b {
      var i :| 0 <= i < |a| && a[i] == l;
      assert b[|b| - |a| + i] == l;
    }
  }

  // ---------------------------------------------------------------- appending

  /** Only an unended line comes or goes with the end of the current file. */
  lemma FlatEnding(c: Chain, max: nat, tail: Tail)
    requires |c| == max + 1
    ensures var lines, lines' := Flat(c), Flat(Ending(c, max, tail));
      && (TailOf(c, max).Unended? && !tail.Unended? ==> lines == lines' + [TailOf(c, max).line])
      && (!TailOf(c, max).Unended? && tail.Unended? ==> lines' == lines + [tail.line])
      && (!TailOf(c, max).Unended? && !tail.Unended? ==> lines' == lines)
  {
    hide Flat;
    var t, d := TailOf(c, max), Ending(c, max, tail);
    if t.Unended? && !tail.Unended? {
      FlatAppend(d, c[max].value, t.line);
      assert d[max := c[max]] == c;
    } else if !t.Unended? && tail.Unended? {
      FlatAppend(c, d[max].value, tail.line);
    } else if !t.Unended? {
      FlatSame(c, max, d[max]);
    }
  }

  /** Ending the current file in less than a line loses an unended line at most. */
  lemma StoredEnding(c: Chain, max: nat, cap: nat, posts: Posts, saved: State, tail: Tail)
    requires Stored(c, max, cap, posts, saved) && !tail.Unended? && Size(CurrentLines(c, max)) + TailBytes(tail) <= cap
    ensures var d := Ending(c, max, tail);
      Stored(d, max, cap, posts, saved) && KnownWithin(Flat(d), Flat(c)) && (Ascending(Flat(c)) ==> Ascending(Flat(d)))
  {
    var d := Ending(c, max, tail);
    ShapedCurrent(c, max, cap, d[max].value);
    FlatEnding(c, max, tail);
    StoredThinned(c, d, max, cap, posts, saved);
    if Ascending(Flat(c)) {
      assert forall i :: 0 <= i < |Flat(d)| ==> Flat(d)[i] == Flat(c)[i];
    }
  }

  lemma AscendingAppend(lines: seq<Line>, line: Line)
    requires line.Readable? && 0 < line.id && Ascending(lines) && AllBelow(lines, line.id)
    ensures Ascending(lines + [line])
  {
  }

  lemma BytesOfCurrent(c: Chain, max: nat)
    requires |c| == max + 1
    ensures FileBytes(c[max]) == Size(CurrentLines(c, max)) + TailBytes(TailOf(c, max)) <= FullBytes(c[max])
  {
  }

  lemma RoomIsThere(c: Chain, max: nat, fileBytes: nat, size: nat)
    requires |c| == max + 1 && 1 <= max && size <= RECORD_MAX_BYTES
    ensures FileBytes(MadeRoom(c, max, fileBytes, size)[max]) + size <= Max(fileBytes, RECORD_MAX_BYTES)
  {
  }

  lemma SuffixBelow(a: seq<Line>, b: seq<Line>, next: nat)
    requires IsSuffix(a, b)
    ensures AllBelow(b, next) ==> AllBelow(a, next)
  {
    assert forall i :: 0 <= i < |a| ==> a[i] == b[|b| - |a| + i];
  }

  /** A line added under the next id, or under the id a failed append has left there, keeps both. */
  lemma StoredAdded(c: Chain, max: nat, cap: nat, posts: Posts, saved: State, st: State, f: File, line: Line)
    requires Stored(c, max, cap, posts, saved) && Working(c, max, posts, saved, st)
    requires LinesOf(Some(f)) == LinesOf(c[max]) + [line] && FullBytes(Some(f)) <= cap
    requires line.Readable? && line.id <= st.next <= line.id + 1
    ensures var d := c[max := Some(f)];
      && Flat(d) == Flat(c) + [line]
      && Stored(d, max, cap, posts[line.id := 0], saved)
      && Working(d, max, posts[line.id := 0], saved, st.(next := line.id + 1))
  {
    ShapedCurrent(c, max, cap, f);
    FlatAppend(c, f, line);
    TracksAppend(Flat(c), posts, saved, line);
    TracksAppend(Flat(c), posts, st, line);
    TracksNext(Flat(c) + [line], posts[line.id := 0], st, line.id + 1);
  }

  /** The files a write leaves that is whole, or lacks only the newline. */
  lemma WrittenFile(c: Chain, max: nat, cap: nat, line: Line)
    requires |c| == max + 1 && TailOf(c, max).Ended? && FileBytes(c[max]) + line.size <= cap
    ensures var whole, open := File(CurrentLines(c, max) + [line], Ended), File(CurrentLines(c, max), Unended(line));
      && LinesOf(Some(whole)) == LinesOf(Some(open)) == LinesOf(c[max]) + [line]
      && FullBytes(Some(whole)) <= cap && FullBytes(Some(open)) <= cap
      && Written(c, max, line) == c[max := Some(whole)] && Ending(c, max, Unended(line)) == c[max := Some(open)]
  {
    SizeAppend(CurrentLines(c, max), line);
  }

  /** A line run together with what the file ended in has no id, and keeps both too. */
  lemma StoredMerged(c: Chain, max: nat, cap: nat, posts: Posts, saved: State, st: State, line: Line, next: nat)
    requires Stored(c, max, cap, posts, saved) && Working(c, max, posts, saved, st) && !TailOf(c, max).Ended?
    requires st.next <= next && FileBytes(c[max]) + line.size <= cap
    ensures var d := Written(c, max, line);
      && KnownWithin(Flat(d), Flat(c))
      && Stored(d, max, cap, posts, saved)
      && Working(d, max, posts, saved, st.(next := next))
  {
    hide Flat, Tracks, HasRoom;
    var lost := After(TailOf(c, max), line);
    var f := File(CurrentLines(c, max) + [lost], Ended);
    var d, e := Written(c, max, line), Ending(c, max, Ended);
    SizeAppend(CurrentLines(c, max), lost);
    ShapedCurrent(c, max, cap, f);
    FlatEnding(c, max, Ended);
    FlatAppend(e, f, lost);
    assert e[max := Some(f)] == d;
    StoredThinned(c, d, max, cap, posts, saved);
    WorkingThinned(c, d, max, posts, saved, st);
    TracksNext(Flat(d), posts, st, next);
  }

  lemma StoredSealed(c: Chain, max: nat, cap: nat)
    requires Shaped(c, max, cap)
    ensures var d := Sealed(c, max);
      && Shaped(d, max, cap) && !TailOf(d, max).Part? && (d[max].Some? <==> c[max].Some?)
      && Flat(d) == Flat(c) + if TailOf(c, max).Part? then [Lost(TailOf(c, max).bytes)] else []
  {
    var t := TailOf(c, max);
    if t.Part? {
      var f := File(CurrentLines(c, max) + [Lost(t.bytes)], Ended);
      SizeAppend(CurrentLines(c, max), Lost(t.bytes));
      ShapedCurrent(c, max, cap, f);
      FlatAppend(c, f, Lost(t.bytes));
    }
  }

  lemma TracksNext(lines: seq<Line>, posts: Posts, s: State, next: nat)
    requires Tracks(lines, posts, s) && s.next <= next
    ensures Tracks(lines, posts, s.(next := next))
  {
    var t := s.(next := next);
    assert HeadIsNewest(lines, t);
  }

  // ---------------------------------------------------------------- compaction

  /** Compacting place `k`, or nothing: no other place changes, and no line above the cursor is lost. */
  predicate CompactStep(c: Chain, d: Chain, k: nat, cursor: nat) {
    && |d| == |c| && Unresolved(Flat(d), cursor) == Unresolved(Flat(c), cursor)
    && (forall i :: 0 <= i < |c| && i != k ==> d[i] == c[i])
  }

  predicate CompactedUpTo(c: Chain, k: nat, cursor: nat) {
    k <= |c| && forall i :: 0 <= i < k ==> Unresolved(LinesOf(c[i]), cursor) == LinesOf(c[i])
  }

  lemma CompactStepExtends(c: Chain, d: Chain, k: nat, cursor: nat)
    requires CompactedUpTo(c, k, cursor) && CompactStep(c, d, k, cursor) && k < |d|
    requires Unresolved(LinesOf(d[k]), cursor) == LinesOf(d[k])
    ensures CompactedUpTo(d, k + 1, cursor)
  {
  }

  lemma StoredCompacted(c: Chain, max: nat, cap: nat, k: nat, cursor: nat)
    requires Shaped(c, max, cap) && k <= max
    ensures var d := c[k := Compacted(c[k], k == max, cursor)];
      && Shaped(d, max, cap) && (Ascending(Flat(c)) ==> Ascending(Flat(d)))
      && Within(Flat(d), Flat(c)) && CompactStep(c, d, k, cursor)
      && Unresolved(LinesOf(d[k]), cursor) == LinesOf(d[k])
      && (d[k].Some? ==> d[k].value.tail.Ended?)
  {
    hide Flat, Unresolved, Ascending, Within, FullBytes;
    var f := Compacted(c[k], k == max, cursor);
    var d := c[k := f];
    CompactedBytes(c[k], k == max, cursor);
    UnresolvedTwice(LinesOf(c[k]), cursor);
    CompactPlace(c, k, k == max, cursor);
    CompactKeeps(c, k, k == max, cursor);
    if 2 <= max {
      var free :| 0 <= free < |c| && c[free].None?;
      assert d[free].None?;
    }
  }
}
