/**
  The simple account the collector's incremental books must agree with
  (monitor-v2/collector.py): one account per connection id, counted once.
  Byte totals are whole numbers; a total or delta below zero is not well formed.
  */
module TrafficLedger {
  import opened Prelude

  /** Text compared for equality only; the empty string is zero. */
  type Text = nat
  type Id = Text
  datatype Key = Key(user: Option<Text>, inbound: Option<Text>)
  datatype Bytes = Bytes(up: int, down: int)
  datatype Phase = Active | Closed | Abandoned
  datatype Account = Account(key: Key, bytes: Bytes, phase: Phase)

  type Ledger = map<Id, Account>

  datatype Fields = Fields(id: Id, key: Key, up: Option<nat>, down: Option<nat>, closedAt: int)
  datatype Kind = New | Update | Close | Unknown
  datatype Event = Event(kind: Kind, id: Id, fields: Option<Fields>, upDelta: nat, downDelta: nat, closedAt: int)

  const ZERO := Bytes(0, 0)

  function Plus(a: Bytes, b: Bytes): Bytes { Bytes(a.up + b.up, a.down + b.down) }

  /** Componentwise maximum: an authoritative total replaces a lower one and never lowers a higher one. */
  function Raise(a: Bytes, b: Bytes): Bytes { Bytes(Max(a.up, b.up), Max(a.down, b.down)) }

  predicate Leq(a: Bytes, b: Bytes) { a.up <= b.up && a.down <= b.down }

  predicate Present(s: Option<Text>) { s.Some? && s.value != 0 }

  predicate Named(k: Key) { Present(k.user) && Present(k.inbound) }

  function Totals(f: Fields): Bytes {
    Bytes(if f.up.Some? then f.up.value else 0, if f.down.Some? then f.down.value else 0)
  }

  /** Raise only the directions the event carries. */
  function RaiseCarried(b: Bytes, f: Fields): Bytes {
    Bytes(if f.up.Some? then Max(b.up, f.up.value) else b.up,
          if f.down.Some? then Max(b.down, f.down.value) else b.down)
  }

  // ---------------------------------------------------------------- one account

  /** The id is seen alive: its account opens, or reopens with what it had as a floor. */
  function Observed(a: Option<Account>, key: Key, b: Bytes): Option<Account> {
    if a.None? then Some(Account(key, b, Active))
    else if a.value.key != key then a
    else Some(Account(key, Raise(a.value.bytes, b), Active))
  }

  /** The id is reported closed: a live account settles, an abandoned bound gives way to the true total. */
  function Settled(a: Option<Account>, key: Key, b: Bytes): Option<Account> {
    if a.None? then Some(Account(key, b, Closed))
    else match a.value.phase
      case Active => Some(Account(a.value.key, Raise(a.value.bytes, b), Closed))
      case Closed => a
      case Abandoned => if a.value.key == key then Some(Account(key, b, Closed)) else a
  }

  /** May this event touch an account of that identity? An event without an identity may. */
  predicate Compatible(key: Key, f: Fields) {
    Named(f.key) ==> f.key == key
  }

  function Updated(a: Option<Account>, e: Event): Option<Account> {
    if a.None? || a.value.phase != Active then a
    else if e.fields.Some? && !Compatible(a.value.key, e.fields.value) then a
    else if e.fields.Some? && (e.fields.value.up.Some? || e.fields.value.down.Some?) then
      Some(a.value.(bytes := RaiseCarried(a.value.bytes, e.fields.value)))
    else Some(a.value.(bytes := Plus(a.value.bytes, Bytes(e.upDelta, e.downDelta))))
  }

  function Finished(a: Option<Account>, e: Event): Option<Account> {
    if a.None? then a
    else match a.value.phase
      case Active =>
        var b := if e.fields.Some? && Compatible(a.value.key, e.fields.value)
                 then RaiseCarried(a.value.bytes, e.fields.value) else a.value.bytes;
        Some(Account(a.value.key, b, Closed))
      case Closed => a
      case Abandoned =>
        if e.fields.Some? && e.fields.value.key == a.value.key
        then Some(Account(a.value.key, Totals(e.fields.value), Closed)) else a
  }

  function Announced(a: Option<Account>, f: Fields): Option<Account> {
    if f.closedAt != 0 then Settled(a, f.key, Totals(f)) else Observed(a, f.key, Totals(f))
  }

  // ---------------------------------------------------------------- the ledger

  function Get(l: Ledger, id: Id): Option<Account> {
    if id in l then Some(l[id]) else None
  }

  function Put(l: Ledger, id: Id, a: Option<Account>): Ledger {
    if a.Some? then l[id := a.value] else l - {id}
  }

  /** An event of an ordinary batch. */
  function Apply(l: Ledger, e: Event): Ledger {
    match e.kind
    case New =>
      if e.fields.None? then l
      else
        var f := e.fields.value;
        if f.closedAt == 0 && (e.id == 0 || !Named(f.key)) then l
        else Put(l, e.id, Announced(Get(l, e.id), f))
    case Update => Put(l, e.id, Updated(Get(l, e.id), e))
    case Close => Put(l, e.id, Finished(Get(l, e.id), e))
    case Unknown => l
  }

  /** The id an event of a reset batch speaks of. */
  function ResetId(e: Event): Id {
    if e.id != 0 then e.id else if e.fields.Some? then e.fields.value.id else 0
  }

  predicate Usable(e: Event) {
    ResetId(e) != 0 && e.fields.Some? && Named(e.fields.value.key)
  }

  function Replay(l: Ledger, events: seq<Event>): Ledger {
    if events == [] then l
    else
      var before, e := Replay(l, events[..|events| - 1]), events[|events| - 1];
      if Usable(e) then Put(before, ResetId(e), Announced(Get(before, ResetId(e)), e.fields.value)) else before
  }

  function Seen(events: seq<Event>): set<Id> {
    set i | 0 <= i < |events| && Usable(events[i]) :: ResetId(events[i])
  }

  function AbandonedBy(a: Account): Account { a.(phase := Abandoned) }

  function Abandon(l: Ledger, ids: set<Id>): Ledger {
    map id | id in l :: if id in ids then AbandonedBy(l[id]) else l[id]
  }

  function Missing(l: Ledger, seen: set<Id>): set<Id> {
    set id | id in l && l[id].phase == Active && id !in seen
  }

  /** A reset replays the server's view; live accounts it leaves out become bounds. */
  function Reset(l: Ledger, events: seq<Event>): Ledger {
    var r := Replay(l, events);
    Abandon(r, Missing(r, Seen(events)))
  }

  function ApplyAll(l: Ledger, events: seq<Event>): Ledger {
    if events == [] then l else Apply(ApplyAll(l, events[..|events| - 1]), events[|events| - 1])
  }

  datatype Batch = Batch(reset: bool, events: seq<Event>)

  function ApplyBatch(l: Ledger, b: Batch): Ledger {
    if b.reset then Reset(l, b.events) else ApplyAll(l, b.events)
  }

  // ---------------------------------------------------------------- per-key totals

  datatype Direction = Up | Down

  /** One counter the snapshot reports: a key in one direction. */
  datatype Meter = Meter(key: Key, dir: Direction)

  function Amount(b: Bytes, d: Direction): int { if d.Up? then b.up else b.down }

  function Share(a: Account, m: Meter): int {
    if a.key == m.key then Amount(a.bytes, m.dir) else 0
  }

  function OptShare(a: Option<Account>, m: Meter): int {
    if a.Some? then Share(a.value, m) else 0
  }

  ghost function Pick(ids: set<Id>): (id: Id)
    requires ids != {}
    ensures id in ids
  {
    var id :| id in ids; id
  }

  /** The meter's total over some of the ledger's accounts. */
  ghost function SumOver(l: Ledger, ids: set<Id>, m: Meter): int
    requires ids <= l.Keys
  {
    if ids == {} then 0
    else var id := Pick(ids); Share(l[id], m) + SumOver(l, ids - {id}, m)
  }

  ghost function Sum(l: Ledger, m: Meter): int {
    SumOver(l, l.Keys, m)
  }

  /** The total does not depend on the order of summing: any id can be taken out first. */
  lemma {:induction false} SumRemove(l: Ledger, ids: set<Id>, id: Id, m: Meter)
    requires id in ids && ids <= l.Keys
    ensures SumOver(l, ids, m) == Share(l[id], m) + SumOver(l, ids - {id}, m)
    decreases |ids|
  {
    var pick := Pick(ids);
    if pick != id {
      SumRemove(l, ids - {pick}, id, m);
      SumRemove(l, ids - {id}, pick, m);
      assert ids - {pick} - {id} == ids - {id} - {pick};
    }
  }

  lemma {:induction false} SumAgrees(l: Ledger, l': Ledger, ids: set<Id>, m: Meter)
    requires ids <= l.Keys && ids <= l'.Keys && forall id :: id in ids ==> Share(l[id], m) == Share(l'[id], m)
    ensures SumOver(l, ids, m) == SumOver(l', ids, m)
    decreases |ids|
  {
    if ids != {} { SumAgrees(l, l', ids - {Pick(ids)}, m); }
  }

  lemma SumPut(l: Ledger, id: Id, a: Option<Account>, m: Meter)
    ensures Sum(Put(l, id, a), m) == Sum(l, m) - OptShare(Get(l, id), m) + OptShare(a, m)
  {
    var l' := Put(l, id, a);
    var others := l.Keys - {id};
    if id in l { SumRemove(l, l.Keys, id, m); } else { assert others == l.Keys; }
    SumAgrees(l, l', others, m);
    if a.Some? {
      assert l'.Keys - {id} == others;
      SumRemove(l', l'.Keys, id, m);
    } else {
      assert l'.Keys == others;
    }
  }

  predicate Nonnegative(l: Ledger) {
    forall id :: id in l ==> Leq(ZERO, l[id].bytes)
  }

  lemma {:induction false} SumNonnegative(l: Ledger, ids: set<Id>, m: Meter)
    requires ids <= l.Keys && Nonnegative(l)
    ensures 0 <= SumOver(l, ids, m)
    decreases |ids|
  {
    if ids != {} { SumNonnegative(l, ids - {Pick(ids)}, m); }
  }

  lemma {:induction false} SumSplit(l: Ledger, a: set<Id>, b: set<Id>, m: Meter)
    requires a <= l.Keys && b <= l.Keys && a !! b
    ensures SumOver(l, a + b, m) == SumOver(l, a, m) + SumOver(l, b, m)
    decreases |b|
  {
    if b == {} {
      assert a + b == a;
    } else {
      var id := Pick(b);
      SumRemove(l, a + b, id, m);
      assert (a + b) - {id} == a + (b - {id});
      SumSplit(l, a, b - {id}, m);
    }
  }

  lemma SumDisjoint(a: Ledger, b: Ledger, m: Meter)
    requires a.Keys !! b.Keys
    ensures Sum(a + b, m) == Sum(a, m) + Sum(b, m)
  {
    assert (a + b).Keys == a.Keys + b.Keys;
    SumSplit(a + b, a.Keys, b.Keys, m);
    SumAgrees(a + b, a, a.Keys, m);
    SumAgrees(a + b, b, b.Keys, m);
  }

  // ---------------------------------------------------------------- totals never go down

  /** The one way an event lowers a total: a final total below the bound an abandoned account was given. */
  predicate Lowers(l: Ledger, e: Event) {
    && e.id in l && l[e.id].phase == Abandoned && e.fields.Some?
    && ((e.kind == New && e.fields.value.closedAt != 0) || e.kind == Close)
    && e.fields.value.key == l[e.id].key
    && !Leq(l[e.id].bytes, Totals(e.fields.value))
  }

  lemma OneAccountChanges(l: Ledger, e: Event)
    ensures Apply(l, e) == Put(l, e.id, Get(Apply(l, e), e.id))
  {
    assert Put(l, e.id, Get(l, e.id)) == l;
  }

  lemma AccountGrows(l: Ledger, e: Event)
    requires e.id in l
    ensures e.id in Apply(l, e) && Apply(l, e)[e.id].key == l[e.id].key
    ensures Leq(l[e.id].bytes, Apply(l, e)[e.id].bytes) <==> !Lowers(l, e)
  {
  }

  lemma AccountStaysNonnegative(l: Ledger, e: Event)
    requires Nonnegative(l)
    ensures Nonnegative(Apply(l, e))
  {
  }

  lemma AccountNeverGoesDown(l: Ledger, e: Event)
    requires Nonnegative(l)
    ensures Nonnegative(Apply(l, e))
    ensures var before, after := Get(l, e.id), Get(Apply(l, e), e.id);
      && (before.Some? ==> after.Some? && after.value.key == before.value.key)
      && (!Lowers(l, e) ==> forall m :: OptShare(before, m) <= OptShare(after, m))
      && (Lowers(l, e) ==> !Leq(before.value.bytes, after.value.bytes))
  {
    AccountStaysNonnegative(l, e);
    if e.id in l { AccountGrows(l, e); }
  }

  /** Per-key totals never go down, except exactly for an abandoned bound replaced by a lower final total. */
  lemma TotalsNeverGoDown(l: Ledger, e: Event)
    requires Nonnegative(l)
    ensures (forall m :: Sum(l, m) <= Sum(Apply(l, e), m)) <==> !Lowers(l, e)
  {
    var before, after := Get(l, e.id), Get(Apply(l, e), e.id);
    OneAccountChanges(l, e);
    AccountNeverGoesDown(l, e);
    forall m ensures Sum(Apply(l, e), m) - Sum(l, m) == OptShare(after, m) - OptShare(before, m) {
      SumPut(l, e.id, after, m);
    }
    if Lowers(l, e) {
      var m := Meter(before.value.key, if before.value.bytes.up > after.value.bytes.up then Up else Down);
      assert Sum(l, m) > Sum(Apply(l, e), m);
    }
  }

  /** A row of a reset is an announcement under the id it resolves to. */
  function AsNew(e: Event): Event { e.(kind := New, id := ResetId(e)) }

  /** Is every final total in the batch at least the bound it replaces? */
  ghost predicate Honest(l: Ledger, b: Batch) {
    forall i :: 0 <= i < |b.events| ==>
      if b.reset then Usable(b.events[i]) ==> !Lowers(Replay(l, b.events[..i]), AsNew(b.events[i]))
      else !Lowers(ApplyAll(l, b.events[..i]), b.events[i])
  }

  lemma {:induction false} EventsNeverGoDown(l: Ledger, events: seq<Event>, m: Meter)
    requires Nonnegative(l) && Honest(l, Batch(false, events))
    ensures Nonnegative(ApplyAll(l, events)) && Sum(l, m) <= Sum(ApplyAll(l, events), m)
  {
    if events != [] {
      var n := |events| - 1;
      var earlier := events[..n];
      assert forall i :: 0 <= i < n ==> earlier[..i] == events[..i];
      EventsNeverGoDown(l, earlier, m);
      AccountNeverGoesDown(ApplyAll(l, earlier), events[n]);
      TotalsNeverGoDown(ApplyAll(l, earlier), events[n]);
    }
  }

  lemma {:induction false} ReplayNeverGoesDown(l: Ledger, events: seq<Event>, m: Meter)
    requires Nonnegative(l) && Honest(l, Batch(true, events))
    ensures Nonnegative(Replay(l, events)) && Sum(l, m) <= Sum(Replay(l, events), m)
  {
    if events != [] {
      var n := |events| - 1;
      var earlier, e := events[..n], events[n];
      assert forall i :: 0 <= i < n ==> earlier[..i] == events[..i];
      ReplayNeverGoesDown(l, earlier, m);
      if Usable(e) {
        assert Replay(l, events) == Apply(Replay(l, earlier), AsNew(e));
        AccountNeverGoesDown(Replay(l, earlier), AsNew(e));
        TotalsNeverGoDown(Replay(l, earlier), AsNew(e));
      }
    }
  }

  /** Abandoning a live account turns its total into a bound and leaves every meter where it was. */
  lemma AbandonKeepsTotals(l: Ledger, ids: set<Id>, m: Meter)
    ensures Sum(Abandon(l, ids), m) == Sum(l, m)
  {
    assert Abandon(l, ids).Keys == l.Keys;
    SumAgrees(l, Abandon(l, ids), l.Keys, m);
  }

  function History(batches: seq<Batch>): Ledger {
    if batches == [] then map[] else ApplyBatch(History(batches[..|batches| - 1]), batches[|batches| - 1])
  }

  lemma BatchNeverGoesDown(l: Ledger, b: Batch, m: Meter)
    requires Nonnegative(l) && Honest(l, b)
    ensures Nonnegative(ApplyBatch(l, b)) && Sum(l, m) <= Sum(ApplyBatch(l, b), m)
  {
    if b.reset {
      ReplayNeverGoesDown(l, b.events, m);
      var r := Replay(l, b.events);
      AbandonKeepsTotals(r, Missing(r, Seen(b.events)), m);
    } else {
      EventsNeverGoDown(l, b.events, m);
    }
  }

  ghost predicate HonestHistory(batches: seq<Batch>) {
    forall i :: 0 <= i < |batches| ==> Honest(History(batches[..i]), batches[i])
  }

  lemma HonestPrefix(batches: seq<Batch>, k: nat)
    requires HonestHistory(batches) && k <= |batches|
    ensures HonestHistory(batches[..k])
  {
    forall i | 0 <= i < k ensures Honest(History(batches[..k][..i]), batches[..k][i]) {
      assert batches[..k][..i] == batches[..i];
    }
  }

  lemma NothingIsNonnegative()
    ensures Nonnegative(map[])
  {
  }

  /** Over any history of batches no meter ever goes down, provided no final total undercuts an abandoned bound. */
  lemma {:induction false} HistoryNeverGoesDown(batches: seq<Batch>, n: nat, m: Meter)
    requires n <= |batches| && HonestHistory(batches)
    ensures Nonnegative(History(batches))
    ensures Sum(History(batches[..n]), m) <= Sum(History(batches), m)
  {
    hide Honest, ApplyBatch, Nonnegative, Sum;
    if n == |batches| { assert batches[..n] == batches; }
    if batches == [] {
      NothingIsNonnegative();
    } else {
      var k := |batches| - 1;
      HonestPrefix(batches, k);
      HistoryNeverGoesDown(batches[..k], if n <= k then n else k, m);
      BatchNeverGoesDown(History(batches[..k]), batches[k], m);
      if n <= k { assert batches[..k][..n] == batches[..n]; }
    }
  }

  // ---------------------------------------------------------------- forgetting accounts

  /** `v` is `l` with some accounts forgotten. */
  ghost predicate Part(v: Ledger, l: Ledger) {
    forall id :: id in v ==> id in l && v[id] == l[id]
  }

  /** Every bound in `v` was one in `l`, the same. */
  ghost predicate BoundsFrom(v: Ledger, l: Ledger) {
    forall id :: id in v && v[id].phase == Abandoned ==> id in l && l[id] == v[id]
  }

  /** What a batch says, event by event: a row of a reset announces its connection, or says nothing. */
  function Said(reset: bool, e: Event): Event {
    if !reset then e else if Usable(e) then AsNew(e) else e.(kind := Unknown)
  }

  function SaidBy(b: Batch): (said: seq<Event>)
    ensures |said| == |b.events|
  {
    seq(|b.events|, i requires 0 <= i < |b.events| => Said(b.reset, b.events[i]))
  }

  /** Some final total in the batch is below the bound the ledger holds for its connection. */
  predicate Undercuts(l: Ledger, b: Batch) {
    exists i :: 0 <= i < |b.events| && Lowers(l, Said(b.reset, b.events[i]))
  }

  /** A row of a reset counts if it says whose it is and which, by its own id or by its connection's. */
  lemma RowSpeaksOf(e: Event)
    ensures Usable(e) <==>
      e.fields.Some? && SaysWhose(e.fields.value.key) && (e.id != 0 || e.fields.value.id != 0)
    ensures Usable(e) ==>
      Said(true, e) == e.(kind := New, id := if e.id == 0 then e.fields.value.id else e.id)
    ensures !Usable(e) ==> Said(true, e).kind == Unknown
    ensures Said(false, e) == e
  {
  }

  lemma RowSays(v: Ledger, e: Event)
    ensures Usable(e) ==> Said(true, e) == AsNew(e)
    ensures !Usable(e) ==> Apply(v, Said(true, e)) == v && Part(v, v)
  {
  }

  lemma NotUndercut(l: Ledger, b: Batch, i: nat)
    requires i < |b.events|
    ensures !Undercuts(l, b) ==> !Lowers(l, Said(b.reset, b.events[i]))
  {
  }

  /** No event makes a bound, so one that undercuts a bound undercuts one that was there all along. */
  lemma EventKeepsBounds(l: Ledger, v: Ledger, e: Event, v': Ledger)
    requires BoundsFrom(v, l) && (Part(v', Apply(v, e)) || Part(v', v))
    ensures BoundsFrom(v', l)
    ensures Lowers(v, e) ==> Lowers(l, e)
  {
  }

  // ---------------------------------------------------------------- what the server has said

  /** At least `h`, and at least what is stated, if anything is. */
  function AtLeast(h: int, stated: Option<nat>): int {
    if stated.Some? && h < stated.value then stated.value else h
  }

  /** What an event makes of the bytes of a connection that has `h`: a stated total counts as one, a delta adds. */
  function Allowing(h: Bytes, e: Event): Bytes {
    match e.kind
    case Unknown => h
    case Update =>
      if e.fields.Some? && !(e.fields.value.up.None? && e.fields.value.down.None?)
      then Bytes(AtLeast(h.up, e.fields.value.up), AtLeast(h.down, e.fields.value.down))
      else Bytes(h.up + e.upDelta, h.down + e.downDelta)
    case _ =>
      if e.fields.None? then h
      else Bytes(AtLeast(h.up, e.fields.value.up), AtLeast(h.down, e.fields.value.down))
  }

  /** What a connection that has `from` comes to by all that is said of it. */
  function ClaimedFrom(from: Bytes, told: seq<Event>, id: Id): Bytes {
    if told == [] then from
    else
      var n := |told| - 1;
      var h := ClaimedFrom(from, told[..n], id);
      if told[n].id == id then Allowing(h, told[n]) else h
  }

  /** What all that was said of a connection amounts to. */
  function Claimed(told: seq<Event>, id: Id): Bytes {
    ClaimedFrom(ZERO, told, id)
  }

  predicate Final(e: Event) {
    e.fields.Some? && ((e.kind == New && e.fields.value.closedAt != 0) || e.kind == Close)
  }

  /** Every final total is at least what was said of its connection before. */
  predicate Truthful(told: seq<Event>) {
    forall i :: 0 <= i < |told| && Final(told[i]) ==>
      Leq(Claimed(told[..i], told[i].id), Totals(told[i].fields.value))
  }

  /** No account holds more than was said of its connection. */
  ghost predicate Warranted(v: Ledger, told: seq<Event>) {
    forall id :: id in v ==> Leq(v[id].bytes, Claimed(told, id))
  }

  lemma {:induction false} ClaimsGrow(told: seq<Event>, more: seq<Event>, id: Id)
    ensures Leq(ZERO, Claimed(told, id)) && Leq(Claimed(told, id), Claimed(told + more, id))
  {
    if more != [] {
      var n := |more| - 1;
      ClaimsGrow(told, more[..n], id);
      assert (told + more)[..|told| + n] == told + more[..n];
    } else {
      assert told + more == told;
      if told != [] { ClaimsGrow(told[..|told| - 1], [], id); }
    }
  }

  lemma EventIsWarranted(v: Ledger, told: seq<Event>, e: Event, v': Ledger)
    requires Warranted(v, told) && (Part(v', Apply(v, e)) || Part(v', v))
    ensures Warranted(v', told + [e])
  {
    assert (told + [e])[..|told|] == told;
    forall id | id in v' ensures Leq(v'[id].bytes, Claimed(told + [e], id)) {
      ClaimsGrow(told, [e], id);
      if id == e.id && v' != v { AccountIsWarranted(v, Claimed(told, id), e); }
    }
  }

  lemma AccountIsWarranted(v: Ledger, h: Bytes, e: Event)
    requires Leq(ZERO, h) && (e.id in v ==> Leq(v[e.id].bytes, h))
    ensures e.id in Apply(v, e) ==> Leq(Apply(v, e)[e.id].bytes, Allowing(h, e))
  {
  }

  lemma AbandonIsWarranted(v: Ledger, ids: set<Id>, told: seq<Event>, v': Ledger)
    requires Warranted(v, told) && Part(v', Abandon(v, ids))
    ensures Warranted(v', told)
  {
  }

  /** If no final total falls short of what was said before, none falls short of a bound. */
  lemma TruthDoesNotUndercut(v: Ledger, told: seq<Event>, b: Batch)
    requires Warranted(v, told) && Truthful(told + SaidBy(b))
    ensures !Undercuts(v, b)
  {
    forall i | 0 <= i < |b.events| ensures !Lowers(v, Said(b.reset, b.events[i])) {
      var e := Said(b.reset, b.events[i]);
      assert (told + SaidBy(b))[|told| + i] == e;
      assert (told + SaidBy(b))[..|told| + i] == told + SaidBy(b)[..i];
      ClaimsGrow(told, SaidBy(b)[..i], e.id);
    }
  }

  /** `v` came from `l` while `said` was said: no bound is new, and nothing is held that was not said. */
  ghost predicate Carries(l: Ledger, told: seq<Event>, v: Ledger, said: seq<Event>) {
    BoundsFrom(v, l) && (Warranted(l, told) ==> Warranted(v, told + said))
  }

  lemma CarriesNothing(l: Ledger, told: seq<Event>)
    ensures Carries(l, told, l, [])
  {
    assert told + [] == told;
  }

  lemma CarriesEvent(l: Ledger, told: seq<Event>, v: Ledger, said: seq<Event>, e: Event, v': Ledger)
    requires Carries(l, told, v, said) && (Part(v', Apply(v, e)) || Part(v', v))
    ensures Carries(l, told, v', said + [e])
    ensures Lowers(v, e) ==> Lowers(l, e)
  {
    EventKeepsBounds(l, v, e, v');
    if Warranted(l, told) {
      EventIsWarranted(v, told + said, e, v');
      assert told + (said + [e]) == told + said + [e];
    }
  }

  lemma CarriesWarrant(l: Ledger, told: seq<Event>, v: Ledger, said: seq<Event>)
    requires Carries(l, told, v, said)
    ensures Warranted(l, told) ==> Warranted(v, told + said)
  {
  }

  lemma SaidNext(b: Batch, i: nat)
    requires i < |b.events|
    ensures SaidBy(b)[..i + 1] == SaidBy(b)[..i] + [Said(b.reset, b.events[i])]
  {
  }

  lemma TruthfulPrefix(told: seq<Event>, more: seq<Event>)
    requires Truthful(told + more)
    ensures Truthful(told)
  {
    var all := told + more;
    forall i | 0 <= i < |told| && Final(told[i])
      ensures Leq(Claimed(told[..i], told[i].id), Totals(told[i].fields.value))
    {
      assert all[i] == told[i] && all[..i] == told[..i];
    }
  }

  // ---------------------------------------------------------------- nothing said is lost

  /** The row says whose it is: it has a user and an inbound, and neither is empty. */
  predicate SaysWhose(k: Key) {
    k.user.Some? && k.inbound.Some? && k.user.value != 0 && k.inbound.value != 0
  }

  /** Does the event count for this account: does it open, continue or close a connection of one identity? */
  predicate Heeded(a: Option<Account>, e: Event) {
    match e.kind
    case Unknown => false
    case New =>
      && e.fields.Some?
      && var f := e.fields.value;
         if f.closedAt != 0 then a.None? || a.value.phase == Active
         else e.id != 0 && SaysWhose(f.key) && (a.None? || a.value.key == f.key)
    case Update =>
      && a.Some? && a.value.phase == Active
      && (e.fields.Some? && SaysWhose(e.fields.value.key) ==> e.fields.value.key == a.value.key)
    case Close =>
      && a.Some? && a.value.phase == Active
      && (e.fields.Some? && SaysWhose(e.fields.value.key) ==> e.fields.value.key == a.value.key)
  }

  /** A true final total for a bound. */
  predicate Replaces(a: Option<Account>, e: Event) {
    && a.Some? && a.value.phase == Abandoned && e.fields.Some? && e.fields.value.key == a.value.key
    && (e.kind == Close || (e.kind == New && e.fields.value.closedAt != 0))
  }

  function BytesOf(a: Option<Account>): Bytes { if a.Some? then a.value.bytes else ZERO }

  /**
    What one event does, account by account. One that is heeded leaves exactly what it says,
    on top of what was there; a final total replaces a bound; any other changes no byte, and
    no event touches another account.
    */
  lemma AccountHears(l: Ledger, e: Event, id: Id)
    requires Nonnegative(l)
    ensures var a, b := Get(l, id), Get(Apply(l, e), id);
      if id != e.id then b == a
      else if Heeded(a, e) then
        && b.Some? && b.value.bytes == Allowing(BytesOf(a), e)
        && b.value.key == (if a.Some? then a.value.key else e.fields.value.key)
        && (b.value.phase.Closed? <==> e.kind == Close || (e.kind == New && e.fields.value.closedAt != 0))
        && (b.value.phase.Closed? || b.value.phase.Active?)
      else if Replaces(a, e) then
        b == Some(Account(a.value.key, Bytes(AtLeast(0, e.fields.value.up), AtLeast(0, e.fields.value.down)), Closed))
      else if e.kind == Close && a.Some? && a.value.phase == Active then
        b == Some(a.value.(phase := Closed))
      else b == a
  {
    OneAccountChanges(l, e);
  }

  /** Every event about the connection is heeded when it comes. */
  predicate AllHeeded(l: Ledger, said: seq<Event>, id: Id) {
    forall i :: 0 <= i < |said| && said[i].id == id ==> Heeded(Get(ApplyAll(l, said[..i]), id), said[i])
  }

  lemma {:induction false} EventsAreHeard(l: Ledger, said: seq<Event>, id: Id)
    requires Nonnegative(l) && AllHeeded(l, said, id)
    ensures Nonnegative(ApplyAll(l, said))
    ensures BytesOf(Get(ApplyAll(l, said), id)) == ClaimedFrom(BytesOf(Get(l, id)), said, id)
  {
    if said != [] {
      var n := |said| - 1;
      forall i | 0 <= i < n && said[..n][i].id == id
        ensures Heeded(Get(ApplyAll(l, said[..n][..i]), id), said[..n][i])
      {
        assert said[..n][..i] == said[..i] && said[i].id == id;
      }
      EventsAreHeard(l, said[..n], id);
      AccountStaysNonnegative(ApplyAll(l, said[..n]), said[n]);
      AccountHears(ApplyAll(l, said[..n]), said[n], id);
    }
  }

  lemma {:induction false} ReplayIsApply(l: Ledger, b: Batch)
    requires b.reset
    ensures Replay(l, b.events) == ApplyAll(l, SaidBy(b))
    decreases |b.events|
  {
    if b.events != [] {
      var n := |b.events| - 1;
      var shorter := Batch(true, b.events[..n]);
      ReplayIsApply(l, shorter);
      assert SaidBy(b)[..n] == SaidBy(shorter);
      RowSays(Replay(l, b.events[..n]), b.events[n]);
    }
  }

  lemma BatchIsHeard(l: Ledger, b: Batch, id: Id)
    requires Nonnegative(l) && AllHeeded(l, SaidBy(b), id)
    ensures Nonnegative(ApplyBatch(l, b))
    ensures BytesOf(Get(ApplyBatch(l, b), id)) == ClaimedFrom(BytesOf(Get(l, id)), SaidBy(b), id)
  {
    EventsAreHeard(l, SaidBy(b), id);
    if b.reset { ReplayIsApply(l, b); } else { assert SaidBy(b) == b.events; }
  }

  /** All that is said in a history. */
  function SaidInAll(batches: seq<Batch>): seq<Event> {
    if batches == [] then [] else SaidInAll(batches[..|batches| - 1]) + SaidBy(batches[|batches| - 1])
  }

  lemma {:induction false} ClaimedConcat(from: Bytes, a: seq<Event>, b: seq<Event>, id: Id)
    ensures ClaimedFrom(from, a + b, id) == ClaimedFrom(ClaimedFrom(from, a, id), b, id)
  {
    if b == [] {
      assert a + b == a;
    } else {
      var n := |b| - 1;
      ClaimedConcat(from, a, b[..n], id);
      assert (a + b)[..|a| + n] == a + b[..n];
    }
  }

  /**
    Nothing said is lost: a connection whose events are all heeded, through closures,
    abandonments and reopenings, has exactly the bytes that all that was said of it amounts to.
    */
  lemma {:induction false} HistoryIsHeard(batches: seq<Batch>, id: Id)
    requires forall i :: 0 <= i < |batches| ==> AllHeeded(History(batches[..i]), SaidBy(batches[i]), id)
    ensures Nonnegative(History(batches))
    ensures BytesOf(Get(History(batches), id)) == Claimed(SaidInAll(batches), id)
  {
    hide AllHeeded, ApplyBatch, Nonnegative;
    if batches == [] {
      NothingIsNonnegative();
    } else {
      var n := |batches| - 1;
      forall i | 0 <= i < n ensures AllHeeded(History(batches[..n][..i]), SaidBy(batches[..n][i]), id) {
        assert batches[..n][..i] == batches[..i];
      }
      HistoryIsHeard(batches[..n], id);
      BatchIsHeard(History(batches[..n]), batches[n], id);
      ClaimedConcat(ZERO, SaidInAll(batches[..n]), SaidBy(batches[n]), id);
    }
  }

  /** An event that leaves a live connection of this identity live. */
  predicate Continues(e: Event, key: Key) {
    match e.kind
    case Unknown => true
    case Close => false
    case New => e.fields.None? || (e.fields.value.closedAt == 0 && Named(key) && e.fields.value.key == key)
    case Update => e.fields.Some? && Named(e.fields.value.key) ==> e.fields.value.key == key
  }

  /** Nothing said of the connection closes it or is about another identity. */
  predicate Steady(said: seq<Event>, id: Id, key: Key) {
    id != 0 && forall i :: 0 <= i < |said| && said[i].id == id ==> Continues(said[i], key)
  }

  /** The live connections of `before` of which only steady things are said are live, with exactly what was said. */
  ghost predicate StaysLive(before: Ledger, said: seq<Event>, after: Ledger) {
    forall id :: id in before && Steady(said, id, before[id].key) ==>
      id in after && after[id] == Account(before[id].key, ClaimedFrom(before[id].bytes, said, id), Active)
  }

  lemma LiveAtFirst(active: Ledger)
    requires forall id :: id in active ==> active[id].phase == Active
    ensures StaysLive(active, [], active)
  {
  }

  /** The live rows after an event. */
  function LiveAfter(active: Ledger, id: Id, a: Option<Account>): Ledger {
    if a.Some? && a.value.phase == Active then active[id := a.value] else active - {id}
  }

  /** What a batch does to the live connections it says only steady things of, and names if it is a reset. */
  ghost predicate BatchKeepsLive(before: Ledger, b: Batch, after: Ledger) {
    forall id :: id in before && Steady(SaidBy(b), id, before[id].key) && (b.reset ==> id in Seen(b.events)) ==>
      id in after && after[id] == Account(before[id].key, ClaimedFrom(before[id].bytes, SaidBy(b), id), Active)
  }

  lemma ResetKeepsLive(before: Ledger, b: Batch, mid: Ledger, after: Ledger)
    requires StaysLive(before, SaidBy(b), mid)
    requires forall id :: id in mid && (b.reset ==> id in Seen(b.events)) ==> id in after && after[id] == mid[id]
    ensures BatchKeepsLive(before, b, after)
  {
  }

  /** An event that says nothing. */
  lemma SilenceKeepsLive(before: Ledger, said: seq<Event>, active: Ledger, e: Event)
    requires StaysLive(before, said, active) && e.kind == Unknown
    ensures StaysLive(before, said + [e], active)
  {
    forall id | id in before && Steady(said + [e], id, before[id].key)
      ensures Steady(said, id, before[id].key) && ClaimedFrom(before[id].bytes, said + [e], id) ==
        ClaimedFrom(before[id].bytes, said, id)
    {
      assert forall i :: 0 <= i < |said| ==> (said + [e])[i] == said[i];
      assert (said + [e])[..|said|] == said;
    }
  }

  lemma LiveHears(before: Ledger, said: seq<Event>, active: Ledger, l: Ledger, e: Event)
    requires StaysLive(before, said, active) && Nonnegative(l)
    requires forall id :: id in active ==> Get(l, id) == Some(active[id])
    ensures StaysLive(before, said + [e], LiveAfter(active, e.id, Get(Apply(l, e), e.id)))
  {
    var after := LiveAfter(active, e.id, Get(Apply(l, e), e.id));
    forall id | id in before && Steady(said + [e], id, before[id].key)
      ensures id in after &&
        after[id] == Account(before[id].key, ClaimedFrom(before[id].bytes, said + [e], id), Active)
    {
      assert forall i :: 0 <= i < |said| ==> (said + [e])[i] == said[i];
      assert (said + [e])[|said|] == e;
      assert Steady(said, id, before[id].key);
      assert (said + [e])[..|said|] == said;
      AccountHears(l, e, id);
    }
  }

  // ---------------------------------------------------------------- replaying a reset is idempotent

  predicate DistinctIds(events: seq<Event>) {
    forall i, j :: 0 <= i < j < |events| && Usable(events[i]) && Usable(events[j]) ==>
      ResetId(events[i]) != ResetId(events[j])
  }

  /** With distinct ids each account is decided by its own event alone. */
  lemma {:induction false} ReplayIsPointwise(l: Ledger, events: seq<Event>, id: Id)
    requires DistinctIds(events)
    ensures id !in Seen(events) ==> Get(Replay(l, events), id) == Get(l, id)
    ensures forall i :: 0 <= i < |events| && Usable(events[i]) && ResetId(events[i]) == id ==>
      Get(Replay(l, events), id) == Announced(Get(l, id), events[i].fields.value)
  {
    if events != [] {
      var n := |events| - 1;
      var earlier, e := events[..n], events[n];
      ReplayIsPointwise(l, earlier, id);
      assert forall i :: 0 <= i < n ==> events[i] == earlier[i];
      if Usable(e) && ResetId(e) == id {
        assert id !in Seen(earlier);
      }
    }
  }

  lemma ResetIsPointwise(l: Ledger, events: seq<Event>, id: Id)
    requires DistinctIds(events)
    ensures id !in Seen(events) ==>
      Get(Reset(l, events), id) == if id in l && l[id].phase == Active then Some(AbandonedBy(l[id])) else Get(l, id)
    ensures forall i :: 0 <= i < |events| && Usable(events[i]) && ResetId(events[i]) == id ==>
      Get(Reset(l, events), id) == Announced(Get(l, id), events[i].fields.value)
  {
    ReplayIsPointwise(l, events, id);
  }

  /** What a reset says of one id, row by row. */
  function Rows(events: seq<Event>, id: Id): seq<Fields> {
    if events == [] then []
    else
      var n := |events| - 1;
      Rows(events[..n], id) +
      if Usable(events[n]) && ResetId(events[n]) == id then [events[n].fields.value] else []
  }

  /** The account after those rows. */
  function Told(a: Option<Account>, rows: seq<Fields>): Option<Account> {
    if rows == [] then a else Announced(Told(a, rows[..|rows| - 1]), rows[|rows| - 1])
  }

  /** Ids repeated or not, an account is decided by the rows of its own id. */
  lemma {:induction false} ReplayByRows(l: Ledger, events: seq<Event>, id: Id)
    ensures Get(Replay(l, events), id) == Told(Get(l, id), Rows(events, id))
  {
    hide ResetId, Announced;
    if events != [] {
      var n := |events| - 1;
      ReplayByRows(l, events[..n], id);
      var rows := Rows(events[..n], id);
      if Usable(events[n]) && ResetId(events[n]) == id {
        var f := events[n].fields.value;
        assert Rows(events, id) == rows + [f] && (rows + [f])[..|rows|] == rows;
      } else {
        assert Rows(events, id) == rows;
      }
    }
  }

  lemma {:induction false} SeenHasRows(events: seq<Event>, id: Id)
    ensures id in Seen(events) <==> Rows(events, id) != []
  {
    if events != [] {
      var n := |events| - 1;
      SeenHasRows(events[..n], id);
      assert forall i :: 0 <= i < n ==> events[i] == events[..n][i];
    }
  }

  lemma ToldNext(a: Option<Account>, rows: seq<Fields>, i: nat)
    requires i < |rows|
    ensures Told(a, rows[..i + 1]) == Announced(Told(a, rows[..i]), rows[i])
  {
    assert rows[..i + 1][..i] == rows[..i];
  }

  /** None of the first rows reports a closure. */
  predicate Quiet(rows: seq<Fields>, i: int)
    requires i <= |rows|
  {
    forall j :: 0 <= j < i ==> rows[j].closedAt == 0
  }

  /** Row `c` is the first one that reports a closure. */
  predicate Leads(rows: seq<Fields>, c: int) {
    0 <= c < |rows| && rows[c].closedAt != 0 && Quiet(rows, c)
  }

  /** The account is live, and the first closure among the rows is above it in some direction. */
  ghost predicate WouldRaise(a: Option<Account>, rows: seq<Fields>) {
    a.Some? && a.value.phase == Active && exists c :: Leads(rows, c) && !Leq(Totals(rows[c]), a.value.bytes)
  }

  /** Further rows keep the identity, and keep or raise all but a bound. */
  lemma {:induction false} RowsRaise(a: Option<Account>, rows: seq<Fields>, i: nat)
    requires i <= |rows| && Told(a, rows[..i]).Some?
    ensures var s, b := Told(a, rows[..i]).value, Told(a, rows);
      && b.Some? && b.value.key == s.key
      && (s.phase != Abandoned ==> b.value.phase != Abandoned && Leq(s.bytes, b.value.bytes))
  {
    if i == |rows| {
      assert rows[..i] == rows;
    } else {
      var n := |rows| - 1;
      assert rows[..n][..i] == rows[..i];
      RowsRaise(a, rows[..n], i);
    }
  }

  /** A bound that is still one was touched by no row. */
  lemma {:induction false} BoundUntouched(a: Option<Account>, rows: seq<Fields>)
    requires Told(a, rows).Some? && Told(a, rows).value.phase == Abandoned
    ensures Told(a, rows) == a
  {
    if rows != [] { BoundUntouched(a, rows[..|rows| - 1]); }
  }

  /**
    `t` is where a second pass stands that must end as `b`, when the first stood at `s`; `quiet`: no
    closure so far.
    */
  ghost predicate KeepsPace(s: Option<Account>, b: Account, t: Option<Account>, quiet: bool) {
    && t.Some? && t.value.key == b.key && t.value.bytes == b.bytes && t.value.phase != Abandoned
    && (b.phase == Active && s.Some? && s.value.phase == Active ==> t.value.phase == Active)
    && (t.value.phase == Active ==> (s.Some? && s.value.phase == Active) || (b.phase == Active && quiet))
  }

  lemma SecondStep(s: Option<Account>, b: Account, t: Option<Account>, quiet: bool, f: Fields)
    requires KeepsPace(s, b, t, quiet)
    requires var next := Announced(s, f).value;
      next.key == b.key && (next.phase != Abandoned ==> Leq(next.bytes, b.bytes))
    requires quiet && b.phase == Active && f.closedAt != 0 ==> Leq(Totals(f), b.bytes)
    ensures KeepsPace(Announced(s, f), b, Announced(t, f), quiet && f.closedAt == 0)
  {
  }

  /** The second time around, row by row: no byte moves, and the account is live where it was the first time. */
  lemma {:induction false} SecondPass(a: Option<Account>, rows: seq<Fields>, i: nat)
    requires i <= |rows| && Told(a, rows).Some? && Told(a, rows).value.phase != Abandoned
    requires !WouldRaise(Told(a, rows), rows)
    ensures KeepsPace(Told(a, rows[..i]), Told(a, rows).value, Told(Told(a, rows), rows[..i]), Quiet(rows, i))
  {
    if i > 0 {
      var k := i - 1;
      var b := Told(a, rows);
      SecondPass(a, rows, k);
      ToldNext(a, rows, k);
      ToldNext(b, rows, k);
      RowsRaise(a, rows, i);
      assert Quiet(rows, i) <==> Quiet(rows, k) && rows[k].closedAt == 0;
      assert Quiet(rows, k) && rows[k].closedAt != 0 ==> Leads(rows, k);
      SecondStep(Told(a, rows[..k]), b.value, Told(b, rows[..k]), Quiet(rows, k), rows[k]);
    }
  }

  lemma {:induction false} LiveRowsKeepLive(a: Option<Account>, rows: seq<Fields>)
    requires a.Some? && a.value.phase == Active && Quiet(rows, |rows|)
    ensures Told(a, rows).Some? && Told(a, rows).value.phase == Active
  {
    if rows != [] { LiveRowsKeepLive(a, rows[..|rows| - 1]); }
  }

  /** An account the first closure would raise has more bytes after the rows. */
  lemma RowsAdd(b: Option<Account>, rows: seq<Fields>)
    requires WouldRaise(b, rows)
    ensures var t := Told(b, rows);
      t.Some? && t.value.key == b.value.key && Leq(b.value.bytes, t.value.bytes) && !Leq(t.value.bytes, b.value.bytes)
  {
    var c :| Leads(rows, c) && !Leq(Totals(rows[c]), b.value.bytes);
    LiveRowsKeepLive(b, rows[..c]);
    assert rows[..c][..0] == [];
    RowsRaise(b, rows[..c], 0);
    ToldNext(b, rows, c);
    RowsRaise(b, rows, c + 1);
  }

  /** Hearing the same rows again changes an account exactly if the first closure would raise it. */
  lemma RowsTwice(a: Option<Account>, rows: seq<Fields>)
    ensures Told(Told(a, rows), rows) == Told(a, rows) <==> !WouldRaise(Told(a, rows), rows)
  {
    var b := Told(a, rows);
    assert rows[..|rows|] == rows && rows[..0] == [];
    if b.None? {
      assert rows == [];
    } else if b.value.phase == Abandoned {
      BoundUntouched(a, rows);
    } else if !WouldRaise(b, rows) {
      SecondPass(a, rows, |rows|);
    } else {
      RowsAdd(b, rows);
    }
  }

  lemma ResetByRows(l: Ledger, events: seq<Event>, id: Id)
    ensures id in Seen(events) ==> Get(Reset(l, events), id) == Told(Get(l, id), Rows(events, id))
    ensures id !in Seen(events) ==> Rows(events, id) == []
    ensures id !in Seen(events) ==>
      Get(Reset(l, events), id) == if id in l && l[id].phase == Active then Some(AbandonedBy(l[id])) else Get(l, id)
  {
    SeenHasRows(events, id);
    ReplayByRows(l, events, id);
  }

  /**
    The server replays its history in every reset. Applying the same reset again
    abandons nothing, and changes nothing exactly if no account it leaves live is below
    the first closure the batch reports for it.
    */
  lemma ResetReplayIsIdempotent(l: Ledger, events: seq<Event>)
    ensures var once := Reset(l, events);
      Reset(once, events) == once <==> forall id :: !WouldRaise(Get(once, id), Rows(events, id))
    ensures var again := Replay(Reset(l, events), events);
      forall id :: id in again && again[id].phase == Active ==> id in Seen(events)
  {
    var once := Reset(l, events);
    var twice := Reset(once, events);
    forall id
      ensures Get(twice, id) == Get(once, id) <==> !WouldRaise(Get(once, id), Rows(events, id))
      ensures id in Replay(once, events) && id !in Seen(events) ==> Replay(once, events)[id].phase != Active
    {
      ResetByRows(l, events, id);
      ResetByRows(once, events, id);
      ReplayByRows(once, events, id);
      RowsTwice(Get(l, id), Rows(events, id));
    }
    SameAccounts(twice, once);
  }

  // ---------------------------------------------------------------- replaying a reset, as the totals tell

  lemma {:induction false} SumMonotone(l: Ledger, l': Ledger, ids: set<Id>, m: Meter)
    requires ids <= l.Keys && ids <= l'.Keys && forall id :: id in ids ==> Share(l[id], m) <= Share(l'[id], m)
    ensures SumOver(l, ids, m) <= SumOver(l', ids, m)
    decreases |ids|
  {
    if ids != {} { SumMonotone(l, l', ids - {Pick(ids)}, m); }
  }

  lemma SumStrict(l: Ledger, l': Ledger, id: Id, m: Meter)
    requires l.Keys == l'.Keys && forall x :: x in l ==> Share(l[x], m) <= Share(l'[x], m)
    requires id in l && Share(l[id], m) < Share(l'[id], m)
    ensures Sum(l, m) < Sum(l', m)
  {
    SumRemove(l, l.Keys, id, m);
    SumRemove(l', l.Keys, id, m);
    SumMonotone(l, l', l.Keys - {id}, m);
  }

  /** What one account is after the second delivery, seen from what it is after the first. */
  lemma SecondDelivery(l: Ledger, events: seq<Event>, id: Id)
    ensures var a, b := Get(Reset(l, events), id), Get(Reset(Reset(l, events), events), id);
      && (WouldRaise(a, Rows(events, id)) ==> id in Seen(events) && b == Told(a, Rows(events, id)))
      && (!WouldRaise(a, Rows(events, id)) ==> b == a)
  {
    var once := Reset(l, events);
    SeenHasRows(events, id);
    ResetByRows(l, events, id);
    ResetByRows(once, events, id);
    RowsTwice(Get(l, id), Rows(events, id));
  }

  /** The second delivery lowers no account, and keeps the identities. */
  lemma SecondRaises(l: Ledger, events: seq<Event>, m: Meter)
    ensures var once := Reset(l, events); var twice := Reset(once, events);
      once.Keys == twice.Keys && forall id :: id in once ==> Share(once[id], m) <= Share(twice[id], m)
  {
    hide Reset, WouldRaise, Rows, Told;
    var once := Reset(l, events);
    var twice := Reset(once, events);
    forall id
      ensures id in once <==> id in twice
      ensures id in once ==> Share(once[id], m) <= Share(twice[id], m)
    {
      SecondDelivery(l, events, id);
      if WouldRaise(Get(once, id), Rows(events, id)) {
        RowsAdd(Get(once, id), Rows(events, id));
        RaisesOnlyAccounts(Get(once, id), Rows(events, id));
      } else {
        assert Get(once, id) == Get(twice, id);
      }
    }
  }

  lemma RaisesOnlyAccounts(a: Option<Account>, rows: seq<Fields>)
    ensures WouldRaise(a, rows) ==> a.Some?
  {
  }

  /** A second delivery moves some total exactly if it changes some account: what it changes it raises. */
  lemma ResetReplayKeepsTotals(l: Ledger, events: seq<Event>)
    ensures var once := Reset(l, events);
      (forall m :: Sum(Reset(once, events), m) == Sum(once, m)) <==>
        forall id :: !WouldRaise(Get(once, id), Rows(events, id))
  {
    hide Reset, WouldRaise, Rows, Told;
    var once := Reset(l, events);
    var twice := Reset(once, events);
    ResetReplayIsIdempotent(l, events);
    if id :| WouldRaise(Get(once, id), Rows(events, id)) {
      SecondDelivery(l, events, id);
      RowsAdd(Get(once, id), Rows(events, id));
      RaisesOnlyAccounts(Get(once, id), Rows(events, id));
      var dir := if once[id].bytes.up < twice[id].bytes.up then Up else Down;
      var m := Meter(once[id].key, dir);
      SecondRaises(l, events, m);
      SumStrict(once, twice, id, m);
    }
  }

  lemma SameAccounts(a: Ledger, b: Ledger)
    ensures a == b <==> forall id :: Get(a, id) == Get(b, id)
  {
    if forall id :: Get(a, id) == Get(b, id) {
      assert forall id :: id in a <==> Get(a, id).Some?;
      assert forall id :: id in b <==> Get(b, id).Some?;
      forall id | id in a ensures a[id] == b[id] { assert Get(a, id) == Get(b, id); }
    }
  }

  /** No row reports an id live after a row that reports it closed. */
  predicate LiveFirst(events: seq<Event>) {
    forall i, j :: 0 <= i < j < |events| && Usable(events[i]) && Usable(events[j]) ==>
      ResetId(events[i]) == ResetId(events[j]) && events[i].fields.value.closedAt != 0 ==>
      events[j].fields.value.closedAt != 0
  }

  lemma {:induction false} ClosureEndsLive(l: Ledger, events: seq<Event>, id: Id)
    requires LiveFirst(events) && Get(Replay(l, events), id).Some?
    requires Get(Replay(l, events), id).value.phase == Active
    ensures forall i :: 0 <= i < |events| && Usable(events[i]) && ResetId(events[i]) == id ==>
      events[i].fields.value.closedAt == 0
  {
    if events != [] {
      var n := |events| - 1;
      var earlier := events[..n];
      assert forall i :: 0 <= i < n ==> events[i] == earlier[i];
      if !(Usable(events[n]) && ResetId(events[n]) == id) { ClosureEndsLive(l, earlier, id); }
    }
  }

  predicate IsRow(e: Event, id: Id, f: Fields) {
    Usable(e) && ResetId(e) == id && e.fields.value == f
  }

  lemma {:induction false} RowsComeFrom(events: seq<Event>, id: Id, c: nat)
    requires c < |Rows(events, id)|
    ensures exists i :: 0 <= i < |events| && IsRow(events[i], id, Rows(events, id)[c])
  {
    var n := |events| - 1;
    if c < |Rows(events[..n], id)| {
      RowsComeFrom(events[..n], id, c);
      var i :| 0 <= i < n && IsRow(events[..n][i], id, Rows(events, id)[c]);
      assert events[i] == events[..n][i];
    } else {
      assert IsRow(events[n], id, Rows(events, id)[c]);
    }
  }

  /** A batch that reports live rows before closures, as one with distinct ids does, replays without effect. */
  lemma LiveFirstIsIdempotent(l: Ledger, events: seq<Event>)
    requires LiveFirst(events)
    ensures Reset(Reset(l, events), events) == Reset(l, events)
  {
    var once := Reset(l, events);
    ResetReplayIsIdempotent(l, events);
    forall id ensures !WouldRaise(Get(once, id), Rows(events, id)) {
      if WouldRaise(Get(once, id), Rows(events, id)) {
        var c :| Leads(Rows(events, id), c);
        ClosureEndsLive(l, events, id);
        RowsComeFrom(events, id, c);
        assert false;
      }
    }
  }

  /** The condition can fail: a batch that closes and then reopens one id raises its total the second time. */
  lemma RepeatedIdBreaksIdempotence()
    ensures exists l: Ledger, events :: Reset(Reset(l, events), events) != Reset(l, events)
  {
    var k := Key(Some(1), Some(2));
    var closing := Event(New, 3, Some(Fields(3, k, Some(20), Some(0), 1)), 0, 0, 0);
    var reopening := Event(New, 3, Some(Fields(3, k, Some(5), Some(0), 0)), 0, 0, 0);
    var l: Ledger := map[3 := Account(k, Bytes(10, 0), Closed)];
    var events := [closing, reopening];
    assert events[..1] == [closing] && events[..1][..0] == [];
    var once := Reset(l, events);
    assert Usable(closing) && Usable(reopening) && 3 in Seen(events) by { assert Usable(events[0]); }
    assert Replay(l, [closing]) == l;
    assert once[3] == Account(k, Bytes(10, 0), Active);
    assert Replay(once, [closing])[3] == Account(k, Bytes(20, 0), Closed);
    assert Reset(once, events)[3] == Account(k, Bytes(20, 0), Active);
  }
}
