/**
  What a poll's digest says, read off the entries themselves: each header counter is the
  number of entries of its kind, and the groups are the table of the eligible entries by
  class, protocol, destination and fingerprint, the first sixteen distinct templates of
  the window having one (monitor-v2/journal_reader/reader.py).
  */
module JournalDigest {
  import opened Prelude
  import opened ExchangeSchema
  import opened JournalBatch

  // ---------------------------------------------------------------- counters

  datatype Fate = Unusable | Info | NoMatch | NoMatchUnusablePriority | Evident

  predicate Meets(e: Entry, f: Fate) {
    match f
    case Unusable => e == Unparsable
    case Info => e.Parsed? && e.decision == DropInfo
    case NoMatch => e.Parsed? && e.decision.DropNoMatch?
    case NoMatchUnusablePriority => e.Parsed? && e.decision == DropNoMatch(true)
    case Evident => e.Parsed? && e.decision.Eligible?
  }

  function HowMany(entries: seq<Entry>, f: Fate): nat {
    if entries == [] then 0
    else HowMany(entries[..|entries| - 1], f) + if Meets(entries[|entries| - 1], f) then 1 else 0
  }

  /** Every counter of the digest is the number of entries of its own kind. */
  lemma {:induction false} CountersAreExact(entries: seq<Entry>)
    ensures var s := Digest(entries);
      && s.processed == |entries|
      && s.pfail == HowMany(entries, Unusable)
      && s.infoDropped == HowMany(entries, Info)
      && s.nomatchDropped == HowMany(entries, NoMatch)
      && s.priorityUnusable == HowMany(entries, NoMatchUnusablePriority)
      && s.eligible == HowMany(entries, Evident)
  {
    if entries != [] { CountersAreExact(entries[..|entries| - 1]); }
  }

  // ---------------------------------------------------------------- templates and keys

  predicate Unclassified(e: Entry) {
    e.Parsed? && e.decision.Eligible? && e.decision.cls.None?
  }

  /** The distinct fingerprints of unclassified entries, in the order they first appear. */
  function Templates(entries: seq<Entry>): (ts: seq<Fingerprint>)
    ensures forall i :: 0 <= i < |entries| && Unclassified(entries[i]) && entries[i].decision.template.Some? ==>
      entries[i].decision.template.value in ts
  {
    if entries == [] then []
    else
      var before, e := Templates(entries[..|entries| - 1]), entries[|entries| - 1];
      if Unclassified(e) && e.decision.template.Some? && e.decision.template.value !in before
      then before + [e.decision.template.value] else before
  }

  /** The fingerprints a window admits: the first sixteen. */
  function Admitted(entries: seq<Entry>): seq<Fingerprint> {
    if |Templates(entries)| <= 16 then Templates(entries) else Templates(entries)[..16]
  }

  /** An entry whose detail is lost: its text is unsafe to hash, or its template came too late. */
  predicate Limited(e: Entry, admitted: seq<Fingerprint>) {
    Unclassified(e) && (e.decision.template.None? || e.decision.template.value !in admitted)
  }

  function HowManyLimited(entries: seq<Entry>, admitted: seq<Fingerprint>): nat {
    if entries == [] then 0
    else
      var earlier := HowManyLimited(entries[..|entries| - 1], admitted);
      if Limited(entries[|entries| - 1], admitted) then earlier + 1 else earlier
  }

  /** Does an entry belong in the row for `k`? */
  predicate Under(e: Entry, k: Key, admitted: seq<Fingerprint>) {
    && e.Parsed? && e.decision.Eligible?
    && var d := e.decision;
       if d.cls.Some? then
         k.cls == d.cls.value && k.proto == d.proto && k.port == d.port && k.dcls == d.dcls && k.fp == None
       else if d.template.None? then
         k.cls == Other && k.proto == d.proto && k.port == d.port && k.dcls == d.dcls && k.fp == None
       else if d.template.value in admitted then
         k.cls == Other && k.proto == d.proto && k.port == d.port && k.dcls == d.dcls && k.fp == d.template
       else k == Key(Other, OtherProto, None, None, None)
  }

  function HowManyUnder(entries: seq<Entry>, k: Key, admitted: seq<Fingerprint>): nat {
    if entries == [] then 0
    else
      var earlier := HowManyUnder(entries[..|entries| - 1], k, admitted);
      if Under(entries[|entries| - 1], k, admitted) then earlier + 1 else earlier
  }

  /** Each entry before the last is limited, and belongs, by the shorter window as by the longer. */
  predicate Agree(entries: seq<Entry>, a: seq<Fingerprint>, b: seq<Fingerprint>) {
    forall i :: 0 <= i < |entries| && Unclassified(entries[i]) && entries[i].decision.template.Some? ==>
      (entries[i].decision.template.value in a <==> entries[i].decision.template.value in b)
  }

  lemma {:induction false} AgreeingWindows(entries: seq<Entry>, k: Key, a: seq<Fingerprint>, b: seq<Fingerprint>)
    requires Agree(entries, a, b)
    ensures HowManyUnder(entries, k, a) == HowManyUnder(entries, k, b)
    ensures HowManyLimited(entries, a) == HowManyLimited(entries, b)
  {
    if entries != [] { AgreeingWindows(entries[..|entries| - 1], k, a, b); }
  }

  lemma {:induction false} TemplatesAreDistinct(entries: seq<Entry>)
    ensures forall i, j :: 0 <= i < j < |Templates(entries)| ==> Templates(entries)[i] != Templates(entries)[j]
  {
    if entries != [] { TemplatesAreDistinct(entries[..|entries| - 1]); }
  }

  function AsSet(ts: seq<Fingerprint>): set<Fingerprint> {
    set t | t in ts
  }

  lemma {:induction false} SetSize(ts: seq<Fingerprint>)
    requires forall i, j :: 0 <= i < j < |ts| ==> ts[i] != ts[j]
    ensures |AsSet(ts)| == |ts|
  {
    if ts != [] {
      var n := |ts| - 1;
      SetSize(ts[..n]);
      assert AsSet(ts) == AsSet(ts[..n]) + {ts[n]};
    }
  }

  /** One more entry admits at most its own template, and never re-decides an earlier one. */
  lemma AdmittedGrows(entries: seq<Entry>)
    requires entries != []
    ensures var before, e := entries[..|entries| - 1], entries[|entries| - 1];
      && Agree(before, Admitted(before), Admitted(entries))
      && |AsSet(Admitted(before))| == |Admitted(before)| <= 16
      && Admitted(entries) ==
         if Unclassified(e) && e.decision.template.Some? && e.decision.template.value !in Admitted(before)
            && |Admitted(before)| < 16
         then Admitted(before) + [e.decision.template.value] else Admitted(before)
  {
    var before := entries[..|entries| - 1];
    TemplatesAreDistinct(before);
    SetSize(Admitted(before));
    forall i | 0 <= i < |before| && Unclassified(before[i]) && before[i].decision.template.Some?
      ensures before[i].decision.template.value in Templates(before)
    {
    }
  }

  // ---------------------------------------------------------------- the table

  /** The first group under a key. */
  function Find(groups: seq<Group>, k: Key): Option<Group> {
    if groups == [] then None
    else if groups[0].key == k then Some(groups[0])
    else Find(groups[1..], k)
  }

  predicate DistinctKeys(groups: seq<Group>) {
    forall i, j :: 0 <= i < j < |groups| ==> groups[i].key != groups[j].key
  }

  lemma {:induction false} TallyFinds(groups: seq<Group>, key: Key, ts: int, k: Key)
    ensures Find(Tally(groups, key, ts), k) ==
      if k != key then Find(groups, k)
      else match Find(groups, k)
           case None => Some(Group(k, ts, ts, 1))
           case Some(g) => Some(Group(k, Min(g.first, ts), Max(g.last, ts), g.n + 1))
    ensures Find(groups, k).Some? ==> Find(groups, k).value.key == k
  {
    if groups != [] { TallyFinds(groups[1..], key, ts, k); }
  }

  lemma {:induction false} TallyKeepsDistinct(groups: seq<Group>, key: Key, ts: int)
    requires DistinctKeys(groups)
    ensures DistinctKeys(Tally(groups, key, ts))
    ensures forall g :: g in Tally(groups, key, ts) ==> g.key == key || exists h :: h in groups && h.key == g.key
  {
    if groups != [] && groups[0].key != key {
      TallyKeepsDistinct(groups[1..], key, ts);
      var after := Tally(groups[1..], key, ts);
      forall j | 0 <= j < |after| ensures after[j].key != groups[0].key {
        assert after[j] in after;
      }
    }
  }

  /** What the table must hold for a key: nothing, or the number of its entries and exactly the times they span. */
  predicate Tells(g: Option<Group>, entries: seq<Entry>, k: Key, admitted: seq<Fingerprint>) {
    match g
    case None => forall i :: 0 <= i < |entries| ==> !Under(entries[i], k, admitted)
    case Some(g) =>
      && g.key == k && 1 <= g.n == HowManyUnder(entries, k, admitted)
      && (forall i :: 0 <= i < |entries| && Under(entries[i], k, admitted) ==> g.first <= entries[i].ts <= g.last)
      && (exists i :: 0 <= i < |entries| && Under(entries[i], k, admitted) && entries[i].ts == g.first)
      && (exists i :: 0 <= i < |entries| && Under(entries[i], k, admitted) && entries[i].ts == g.last)
  }

  lemma {:induction false} NoneUnder(entries: seq<Entry>, k: Key, admitted: seq<Fingerprint>)
    requires forall i :: 0 <= i < |entries| ==> !Under(entries[i], k, admitted)
    ensures HowManyUnder(entries, k, admitted) == 0
  {
    if entries != [] { NoneUnder(entries[..|entries| - 1], k, admitted); }
  }

  /** The key an entry is tallied under is the one it belongs to. */
  lemma ClassifyIsUnder(e: Entry, admitted: seq<Fingerprint>, after: seq<Fingerprint>, k: Key)
    requires e.Parsed? && e.decision.Eligible?
    requires |AsSet(admitted)| == |admitted| <= 16
    requires after ==
      if Unclassified(e) && e.decision.template.Some? && e.decision.template.value !in admitted && |admitted| < 16
      then admitted + [e.decision.template.value] else admitted
    ensures var (key, limited) := Classify(e.decision, AsSet(admitted));
      && (Under(e, k, after) <==> k == key)
      && (limited <==> Limited(e, after))
      && AsSet(admitted) + (if key.fp.Some? then {key.fp.value} else {}) == AsSet(after)
  {
  }

  lemma UnderNone(e: Entry, k: Key, admitted: seq<Fingerprint>)
    requires !(e.Parsed? && e.decision.Eligible?)
    ensures !Under(e, k, admitted) && !Limited(e, admitted)
  {
  }

  lemma TellsMore(entries: seq<Entry>, k: Key, a: seq<Fingerprint>, b: seq<Fingerprint>, g: Option<Group>)
    requires entries != []
    requires var n := |entries| - 1; Tells(g, entries[..n], k, a) && Agree(entries[..n], a, b)
    ensures var e := entries[|entries| - 1];
      Tells(if !Under(e, k, b) then g
            else if g.None? then Some(Group(k, e.ts, e.ts, 1))
            else Some(Group(k, Min(g.value.first, e.ts), Max(g.value.last, e.ts), g.value.n + 1)), entries, k, b)
  {
    var n := |entries| - 1;
    var before, e := entries[..n], entries[n];
    AgreeingWindows(before, k, a, b);
    assert forall i :: 0 <= i < n ==> before[i] == entries[i] && (Under(entries[i], k, a) <==> Under(entries[i], k, b));
    if g.None? {
      NoneUnder(before, k, b);
    } else {
      var i :| 0 <= i < n && Under(before[i], k, a) && before[i].ts == g.value.first;
      var j :| 0 <= j < n && Under(before[j], k, a) && before[j].ts == g.value.last;
      assert Under(entries[i], k, b) && Under(entries[j], k, b);
    }
  }

  /**
    The digest is exact: its fingerprints are the first sixteen distinct templates, what it
    counts as limited is what has no place among them, and for every key its table holds one
    group exactly if an entry belongs there, with their number and their first and last time.
    */
  lemma {:induction false} DigestIsExact(entries: seq<Entry>, k: Key)
    ensures var s := Digest(entries);
      && s.fps == AsSet(Admitted(entries))
      && s.limited == HowManyLimited(entries, Admitted(entries))
      && DistinctKeys(s.groups)
      && Tells(Find(s.groups, k), entries, k, Admitted(entries))
  {
    hide Templates, Tells, Under, Limited, DistinctKeys, Tally, Classify, Find, Admitted, AsSet, Agree;
    if entries == [] {
      EmptyDigest(k);
    } else {
      var before, e := entries[..|entries| - 1], entries[|entries| - 1];
      var s := Digest(before);
      DigestIsExact(before, k);
      AdmittedGrows(entries);
      AgreeingWindows(before, k, Admitted(before), Admitted(entries));
      TellsMore(entries, k, Admitted(before), Admitted(entries), Find(s.groups, k));
      if e.Parsed? && e.decision.Eligible? {
        ClassifyIsUnder(e, Admitted(before), Admitted(entries), k);
        var key := Classify(e.decision, s.fps).0;
        TallyFinds(s.groups, key, e.ts, k);
        TallyKeepsDistinct(s.groups, key, e.ts);
      } else {
        UnderNone(e, k, Admitted(entries));
      }
    }
  }

  lemma EmptyDigest(k: Key)
    ensures Digest([]).fps == AsSet(Admitted([])) && Digest([]).limited == HowManyLimited([], Admitted([]))
    ensures DistinctKeys(Digest([]).groups) && Tells(Find(Digest([]).groups, k), [], k, Admitted([]))
  {
  }

  // ---------------------------------------------------------------- the file

  /** The header of a file tells, counter by counter, what became of the entries, and how much detail was lost. */
  lemma HeaderIsExact(entries: seq<Entry>, seqNo: int, run: nat, epoch: int, boundary: Boundary)
    requires Body(Digest(entries), seqNo, run, epoch, boundary).Some?
    ensures var groups := Digest(entries).groups;
      var lines := Body(Digest(entries), seqNo, run, epoch, boundary).value;
      && 0 < |lines| && lines[0].HeaderLine? && lines[0].exact
      && var h := lines[0].header;
         && h.seqNo == seqNo && h.run == run && h.epoch == epoch && h.boundary == boundary
         && h.lines == |entries|
         && h.pfail == HowMany(entries, Unusable)
         && h.infoDropped == HowMany(entries, Info)
         && h.nomatchDropped == HowMany(entries, NoMatch)
         && h.priorityUnusable == HowMany(entries, NoMatchUnusablePriority)
         && h.eligible == HowMany(entries, Evident)
         && h.limited == HowManyLimited(entries, Admitted(entries)) + if |groups| <= 200 then 0 else |groups| - 192
  {
    hide Records, Digest;
    CountersAreExact(entries);
    DigestIsExact(entries, Key(Other, OtherProto, None, None, None));
  }

  /** A file of at most two hundred groups has one record a group, with all its detail. */
  lemma SmallFileKeepsDetail(groups: seq<Group>, i: nat)
    requires |groups| <= 200 && i < |groups|
    ensures |Records(groups)| == |groups|
    ensures var e, g := Records(groups)[i], groups[i];
      && e.ts == g.first && e.n == g.n && e.fp == g.key.fp
      && e.cls == g.key.cls && e.proto == g.key.proto && e.port == g.key.port && e.dcls == g.key.dcls
  {
  }

  /** A folded record stands for every row of its class: their number, their earliest time, no detail. */
  lemma {:induction false} FoldedRecord(rows: seq<Event>, classes: seq<Class>, i: nat)
    requires i < |Fold(rows, classes)|
    ensures var e := Fold(rows, classes)[i];
      && e == Event(e.ts, e.cls, OtherProto, None, None, None, CountOf(rows, e.cls)) && e.cls in classes
      && (forall j :: 0 <= j < |rows| && rows[j].cls == e.cls ==> e.ts <= rows[j].ts)
      && (exists j :: 0 <= j < |rows| && rows[j].cls == e.cls && rows[j].ts == e.ts)
  {
    if Mentions(rows, classes[0]) {
      if i == 0 { EarliestIsLeast(rows, classes[0]); } else { FoldedRecord(rows, classes[1..], i - 1); }
    } else {
      FoldedRecord(rows, classes[1..], i);
    }
  }

  lemma {:induction false} EarliestIsLeast(rows: seq<Event>, c: Class)
    requires Mentions(rows, c)
    ensures forall j :: 0 <= j < |rows| && rows[j].cls == c ==> Earliest(rows, c) <= rows[j].ts
    ensures exists j :: 0 <= j < |rows| && rows[j].cls == c && rows[j].ts == Earliest(rows, c)
  {
    var n := |rows| - 1;
    assert forall j :: 0 <= j < n ==> rows[..n][j] == rows[j];
    if Mentions(rows[..n], c) {
      EarliestIsLeast(rows[..n], c);
      var j :| 0 <= j < n && rows[..n][j].cls == c && rows[..n][j].ts == Earliest(rows[..n], c);
      if rows[n].cls == c && rows[n].ts < rows[j].ts { assert rows[n].ts == Earliest(rows, c); }
    }
  }

  // ---------------------------------------------------------------- the order of a full file

  function ClassName(c: Class): string {
    match c
    case Dns => "dns" case DialTimeout => "dial_timeout" case Reset => "reset"
    case NetUnreachable => "net_unreachable" case TlsHandshake => "tls_handshake"
    case QuicError => "quic_error" case EofCancel => "eof_cancel" case Other => "other"
  }

  /** Two class names differ in their first letter, or agree in it and differ in the second. */
  predicate NameBefore(a: Class, b: Class) {
    || ClassName(a)[0] < ClassName(b)[0]
    || (ClassName(a)[0] == ClassName(b)[0] && ClassName(a)[1] < ClassName(b)[1])
  }

  lemma RanksFollowNames(a: Class, b: Class)
    ensures ClassRank(a) < ClassRank(b) <==> NameBefore(a, b)
    ensures ClassRank(a) == ClassRank(b) <==> a == b
  {
  }

  function ProtoName(p: Proto): string {
    match p case Reality => "Reality" case Hysteria2 => "Hysteria2" case OtherProto => "OTHER"
  }

  function DestName(d: DestClass): string {
    match d
    case Https443 => "https443" case Http80 => "http80" case Quic => "quic" case Dns53 => "dns53"
    case Dot853 => "dot853" case Smtpish => "smtpish" case OtherDest => "other"
  }

  predicate ProtoBefore(a: Proto, b: Proto) { ProtoName(a)[0] < ProtoName(b)[0] }

  /** Two of these names differ in their first letter, in their second, or agree in four and differ in the fifth. */
  predicate DestBefore(a: DestClass, b: DestClass) {
    || DestName(a)[0] < DestName(b)[0]
    || (DestName(a)[0] == DestName(b)[0] && DestName(a)[1] < DestName(b)[1])
    || (4 < |DestName(a)| && 4 < |DestName(b)| && DestName(a)[..4] == DestName(b)[..4] &&
        DestName(a)[4] < DestName(b)[4])
  }

  lemma MoreRanksFollowNames(a: Event, b: Event)
    ensures ProtoRank(a.proto) < ProtoRank(b.proto) <==> ProtoBefore(a.proto, b.proto)
    ensures ProtoRank(a.proto) == ProtoRank(b.proto) <==> a.proto == b.proto
    ensures DestRank(a.dcls) < DestRank(b.dcls) <==>
      b.dcls.Some? && (a.dcls.Some? ==> DestBefore(a.dcls.value, b.dcls.value))
    ensures DestRank(a.dcls) == DestRank(b.dcls) <==> a.dcls == b.dcls
  {
  }

  /** The order of the rows: by number, then by names, then what has a port, a destination or a fingerprint last. */
  predicate Precedes(a: Event, b: Event) {
    if a.n != b.n then a.n > b.n
    else if a.cls != b.cls then NameBefore(a.cls, b.cls)
    else if a.proto != b.proto then ProtoBefore(a.proto, b.proto)
    else if a.port != b.port then b.port.Some? && (a.port.Some? ==> a.port.value < b.port.value)
    else if a.dcls != b.dcls then b.dcls.Some? && (a.dcls.Some? ==> DestBefore(a.dcls.value, b.dcls.value))
    else a.fp.Some? ==> b.fp.Some? && a.fp.value <= b.fp.value
  }

  lemma KeyOrder(a: Event, b: Event)
    requires NotAfter(SortKey(a), SortKey(b))
    requires (a.port.Some? ==> 0 < a.port.value) && (b.port.Some? ==> 0 < b.port.value)
    ensures Precedes(a, b)
  {
    var x, y := SortKey(a), SortKey(b);
    RanksFollowNames(a.cls, b.cls);
    MoreRanksFollowNames(a, b);
    if a.n == b.n {
      assert NotAfter(x[1..], y[1..]);
      if a.cls == b.cls {
        assert NotAfter(x[2..], y[2..]) by { assert x[1..][1..] == x[2..] && y[1..][1..] == y[2..]; }
        if a.proto == b.proto { LaterKeyOrder(a, b); }
      }
    }
  }

  lemma LaterKeyOrder(a: Event, b: Event)
    requires NotAfter(SortKey(a)[2..], SortKey(b)[2..]) && a.n == b.n && a.cls == b.cls && a.proto == b.proto
    requires (a.port.Some? ==> 0 < a.port.value) && (b.port.Some? ==> 0 < b.port.value)
    ensures Precedes(a, b)
  {
    hide ClassRank, ProtoRank, DestRank, NameBefore, ProtoBefore, DestBefore;
    var x, y := SortKey(a), SortKey(b);
    MoreRanksFollowNames(a, b);
    assert x[2] == y[2];
    OneLess(x, y, 2);
    if a.port == b.port {
      OneLess(x, y, 3);
      if a.dcls == b.dcls { OneLess(x, y, 4); }
    }
  }

  /** Keys that agree at `k` are ordered by what follows. */
  lemma OneLess(x: seq<int>, y: seq<int>, k: nat)
    requires |x| == |y| == 6 && k < 5 && NotAfter(x[k..], y[k..])
    ensures x[k] <= y[k] && (x[k] == y[k] ==> NotAfter(x[k + 1..], y[k + 1..]) && x[k + 1] <= y[k + 1])
  {
    assert x[k..][0] == x[k] && y[k..][0] == y[k];
    assert x[k..][1..] == x[k + 1..] && y[k..][1..] == y[k + 1..];
  }

  lemma {:induction false} OrderIsTotal(a: seq<int>, b: seq<int>)
    requires |a| == |b|
    ensures NotAfter(a, b) || NotAfter(b, a)
  {
    if a != [] { OrderIsTotal(a[1..], b[1..]); }
  }

  lemma {:induction false} OrderIsTransitive(a: seq<int>, b: seq<int>, c: seq<int>)
    requires |a| == |b| == |c| && NotAfter(a, b) && NotAfter(b, c)
    ensures NotAfter(a, c)
  {
    if a != [] && a[0] == b[0] == c[0] { OrderIsTransitive(a[1..], b[1..], c[1..]); }
  }

  predicate InRowOrder(rows: seq<Event>) {
    forall i, j :: 0 <= i < j < |rows| ==> NotAfter(SortKey(rows[i]), SortKey(rows[j]))
  }

  lemma {:induction false} InsertInOrder(e: Event, rows: seq<Event>)
    requires InRowOrder(rows)
    ensures InRowOrder(Insert(e, rows))
    ensures forall r :: r in Insert(e, rows) ==> r == e || r in rows
  {
    hide SortKey, NotAfter;
    if rows == [] {
    } else if NotAfter(SortKey(e), SortKey(rows[0])) {
      forall j | 0 < j < |rows| ensures NotAfter(SortKey(e), SortKey(rows[j])) {
        KeysAlike();
        OrderIsTransitive(SortKey(e), SortKey(rows[0]), SortKey(rows[j]));
      }
    } else {
      InsertInOrder(e, rows[1..]);
      KeysAlike();
      OrderIsTotal(SortKey(e), SortKey(rows[0]));
      var after := Insert(e, rows[1..]);
      forall j | 0 <= j < |after| ensures NotAfter(SortKey(rows[0]), SortKey(after[j])) {
        assert after[j] in after;
        if after[j] != e {
          var k :| 0 <= k < |rows[1..]| && rows[1..][k] == after[j];
          assert rows[k + 1] == after[j];
        }
      }
    }
  }

  lemma KeysAlike()
    ensures forall e :: |SortKey(e)| == 6
  {
  }

  lemma {:induction false} SortIsInOrder(rows: seq<Event>)
    ensures InRowOrder(Sort(rows))
  {
    if rows != [] {
      SortIsInOrder(rows[1..]);
      InsertInOrder(rows[0], Sort(rows[1..]));
    }
  }

  /** The kept records of a full file come in that order: most frequent first, ties broken to the last detail. */
  lemma FullFileIsInOrder(groups: seq<Group>, i: nat, j: nat)
    requires 200 < |groups| && i < j < 192
    requires forall g :: g in groups && g.key.port.Some? ==> 0 < g.key.port.value
    ensures |Sort(Rows(groups))| == |groups| && |Records(groups)| >= 192
    ensures Precedes(Records(groups)[i], Records(groups)[j])
  {
    hide Precedes, SortKey, NotAfter, Sort;
    SortLength(Rows(groups));
    SortIsInOrder(Rows(groups));
    var a, b := Sort(Rows(groups))[i], Sort(Rows(groups))[j];
    assert NotAfter(SortKey(a), SortKey(b));
    SortKeepsRows(Rows(groups), i);
    SortKeepsRows(Rows(groups), j);
    KeyOrder(a, b);
  }

  /** A row of the sorted table is a row of the table. */
  lemma {:induction false} SortKeepsRows(rows: seq<Event>, i: nat)
    requires i < |Sort(rows)|
    ensures Sort(rows)[i] in rows
  {
    if rows != [] {
      var rest := Sort(rows[1..]);
      SortIsInOrder(rows[1..]);
      InsertInOrder(rows[0], rest);
      var e := Sort(rows)[i];
      assert e in Insert(rows[0], rest);
      if e != rows[0] {
        var k :| 0 <= k < |rest| && rest[k] == e;
        SortKeepsRows(rows[1..], k);
      }
    }
  }
}
