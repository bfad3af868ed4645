/**
  The collector's incremental books (`Tracker` in monitor-v2/collector.py): live
  connections, banked connections behind an LRU guard, and per-key banked totals,
  updated in place event by event. They are proved against the ledger in which
  every connection id is one account.
  */
module Tracker {
  import opened Prelude
  import opened TrafficLedger

  /** A row of the recently-closed display cache. */
  datatype Shown = Shown(key: Key, closedAt: int)

  function ToSeconds(t: int): int { if t > 100_000_000_000 then t / 1000 else t }

  /** The moment, in seconds, that a stated closing time stands for: it may be in milliseconds, or not stated. */
  predicate IsMoment(t: int, stated: int, now: int) {
    if stated == 0 then t == now
    else if stated <= 100_000_000_000 then t == stated
    else 1000 * t <= stated < 1000 * (t + 1)
  }

  /** What an event says of the moment of a closing. */
  function Stated(e: Event): int {
    if e.kind == Close && e.closedAt != 0 then e.closedAt
    else if e.fields.Some? then e.fields.value.closedAt else 0
  }

  /** The event closes this connection, or is the first to say that it has closed. */
  predicate Closes(active: Ledger, banked: Ledger, closed: map<Id, Shown>, e: Event) {
    var bound := e.id in banked && banked[e.id].phase == Abandoned;
    || (e.kind == Close && e.id in active)
    || (e.kind == Close && e.id !in active && bound && e.fields.Some? && banked[e.id].key == e.fields.value.key)
    || (e.kind == New && e.fields.Some? && e.fields.value.closedAt != 0 &&
        if e.id in banked then bound && banked[e.id].key == e.fields.value.key else e.id !in closed)
  }

  /** The event announces this connection as live, and is about the one that is known, if one is. */
  predicate Reopens(banked: Ledger, closed: map<Id, Shown>, e: Event) {
    && e.kind == New && e.fields.Some? && e.fields.value.closedAt == 0 && e.id != 0 && SaysWhose(e.fields.value.key)
    && (e.id in closed ==> closed[e.id].key == e.fields.value.key)
    && (e.id in banked ==> banked[e.id].key == e.fields.value.key)
  }

  /** Whose connection it is, as far as known before the event. */
  function Owner(active: Ledger, banked: Ledger, e: Event): Option<Key> {
    if e.id in active then Some(active[e.id].key)
    else if e.id in banked then Some(banked[e.id].key)
    else if e.fields.Some? then Some(e.fields.value.key) else None
  }

  /**
    The display cache after an event: a closing puts its connection there, with its owner and its moment, a
    reopening takes it out, and nothing else changes it. A time beyond 10^14 is converted twice on some paths;
    nothing is claimed of it.
    */
  predicate Displayed(active: Ledger, banked: Ledger, closed: map<Id, Shown>, e: Event, now: int,
                      closed': map<Id, Shown>) {
    if Closes(active, banked, closed, e) then
      && e.id in closed' && closed' == closed[e.id := closed'[e.id]]
      && Owner(active, banked, e) == Some(closed'[e.id].key)
      && (Stated(e) <= 100_000_000_000_000 && now <= 100_000_000_000 ==>
            IsMoment(closed'[e.id].closedAt, Stated(e), now))
    else if Reopens(banked, closed, e) then closed' == closed - {e.id}
    else closed' == closed
  }

  function At(totals: map<Key, Bytes>, m: Meter): int {
    if m.key in totals then Amount(totals[m.key], m.dir) else 0
  }

  function SlotOf(totals: map<Key, Bytes>, k: Key): Bytes {
    if k in totals then totals[k] else ZERO
  }

  predicate NoRepeats(s: seq<Id>) {
    forall i, j :: 0 <= i < j < |s| ==> s[i] != s[j]
  }

  function Removed(s: seq<Id>, id: Id): seq<Id> {
    if s == [] then [] else (if s[0] == id then [] else [s[0]]) + Removed(s[1..], id)
  }

  lemma {:induction false} RemovedFacts(s: seq<Id>, id: Id)
    requires NoRepeats(s)
    ensures NoRepeats(Removed(s, id))
    ensures forall x :: x in Removed(s, id) <==> x in s && x != id
  {
    if s != [] {
      var rest := Removed(s[1..], id);
      RemovedFacts(s[1..], id);
      assert forall x :: x in s <==> x == s[0] || x in s[1..];
      assert s[0] !in s[1..];
      assert s[0] !in rest;
      assert NoRepeats([s[0]] + rest) by {
        forall j | 0 <= j < |rest| ensures rest[j] != s[0] { assert rest[j] in rest; }
      }
    }
  }

  /** The totals with one more account banked. */
  function Credit(totals: map<Key, Bytes>, a: Account): map<Key, Bytes> {
    totals[a.key := Plus(SlotOf(totals, a.key), a.bytes)]
  }

  lemma CreditAt(totals: map<Key, Bytes>, a: Account)
    ensures forall m :: At(Credit(totals, a), m) == At(totals, m) + Share(a, m)
  {
  }

  lemma SumWithout(l: Ledger, id: Id)
    requires id in l
    ensures forall m :: Sum(l - {id}, m) == Sum(l, m) - Share(l[id], m)
  {
    forall m ensures Sum(l - {id}, m) == Sum(l, m) - Share(l[id], m) { SumPut(l, id, None, m); }
  }

  lemma SumWith(l: Ledger, id: Id, a: Account)
    requires id !in l
    ensures forall m :: Sum(l[id := a], m) == Sum(l, m) + Share(a, m)
  {
    forall m ensures Sum(l[id := a], m) == Sum(l, m) + Share(a, m) { SumPut(l, id, Some(a), m); }
  }

  lemma SumsNonnegative(l: Ledger)
    requires Nonnegative(l)
    ensures forall m :: 0 <= Sum(l, m)
  {
    forall m ensures 0 <= Sum(l, m) { SumNonnegative(l, l.Keys, m); }
  }

  /** The totals with one account taken out, clamped at zero. */
  function Debit(totals: map<Key, Bytes>, a: Account): map<Key, Bytes> {
    var slot := SlotOf(totals, a.key);
    totals[a.key := Bytes(Max(0, slot.up - a.bytes.up), Max(0, slot.down - a.bytes.down))]
  }

  /** The bank holds exactly the banked records, what was forgotten, and `extra`. */
  ghost predicate Balanced(finalized: map<Key, Bytes>, banked: Ledger, forgotten: map<Key, Bytes>,
                           extra: Option<Account>) {
    forall m :: At(finalized, m) == Sum(banked, m) + At(forgotten, m) + OptShare(extra, m)
  }

  ghost predicate Positive(totals: map<Key, Bytes>) {
    forall m :: 0 <= At(totals, m)
  }

  /** Taking a banked record out never reaches the clamp: the bank holds at least what the record put in. */
  lemma DebitIsExact(finalized: map<Key, Bytes>, banked: Ledger, forgotten: map<Key, Bytes>, id: Id)
    requires Balanced(finalized, banked, forgotten, None) && Nonnegative(banked) && Positive(forgotten) && id in banked
    ensures Leq(banked[id].bytes, SlotOf(finalized, banked[id].key))
    ensures Balanced(Debit(finalized, banked[id]), banked - {id}, forgotten, None)
  {
    var a := banked[id];
    SumWithout(banked, id);
    SumsNonnegative(banked - {id});
    assert Share(a, Meter(a.key, Up)) <= At(finalized, Meter(a.key, Up));
    assert Share(a, Meter(a.key, Down)) <= At(finalized, Meter(a.key, Down));
    assert forall m :: At(Debit(finalized, a), m) == At(finalized, m) - Share(a, m);
  }

  lemma ForgettingBalances(finalized: map<Key, Bytes>, banked: Ledger, forgotten: map<Key, Bytes>, id: Id)
    requires Balanced(finalized, banked, forgotten, None) && Nonnegative(banked) && Positive(forgotten) && id in banked
    ensures Balanced(finalized, banked - {id}, Credit(forgotten, banked[id]), None)
    ensures Positive(Credit(forgotten, banked[id]))
  {
    SumWithout(banked, id);
    CreditAt(forgotten, banked[id]);
    assert forall m :: 0 <= Share(banked[id], m);
  }

  lemma RecordingBalances(finalized: map<Key, Bytes>, banked: Ledger, forgotten: map<Key, Bytes>, id: Id, a: Account)
    requires Balanced(finalized, banked, forgotten, Some(a)) && id !in banked
    ensures Balanced(finalized, banked[id := a], forgotten, None)
  {
    SumWith(banked, id, a);
  }

  lemma CreditBalances(finalized: map<Key, Bytes>, banked: Ledger, forgotten: map<Key, Bytes>, a: Account)
    requires Balanced(finalized, banked, forgotten, None)
    ensures Balanced(Credit(finalized, a), banked, forgotten, Some(a))
  {
    CreditAt(finalized, a);
  }

  lemma {:induction false} SeqSize(order: seq<Id>, ids: set<Id>)
    requires NoRepeats(order) && forall id :: id in order <==> id in ids
    ensures |order| == |ids|
  {
    if order == [] {
      assert ids == {};
    } else {
      var n := |order| - 1;
      var last := order[n];
      assert forall id :: id in order[..n] <==> id in order && id != last;
      SeqSize(order[..n], ids - {last});
    }
  }

  lemma {:induction false} RemovedSize(s: seq<Id>, id: Id)
    ensures |Removed(s, id)| <= |s|
  {
    if s != [] { RemovedSize(s[1..], id); }
  }

  lemma SizeSplits(active: Ledger, banked: Ledger)
    requires active.Keys !! banked.Keys
    ensures |active + banked| == |active| + |banked|
  {
    assert (active + banked).Keys == active.Keys + banked.Keys;
  }

  lemma PutGrowsByOne(l: Ledger, id: Id, a: Option<Account>)
    ensures |Put(l, id, a)| <= |l| + 1
  {
    assert Put(l, id, a).Keys <= l.Keys + {id};
    SubsetSize(Put(l, id, a).Keys, l.Keys + {id});
  }

  /** The tables agree: live and banked ids are apart, and the LRU order lists the banked ones. */
  ghost predicate Sound(active: Ledger, banked: Ledger, order: seq<Id>, closed: map<Id, Shown>,
                        forgotten: map<Key, Bytes>, evicted: bool) {
    && active.Keys !! banked.Keys && active.Keys !! closed.Keys
    && (forall id :: id in active ==> active[id].phase == Active)
    && (forall id :: id in banked ==> banked[id].phase != Active)
    && Nonnegative(active) && Nonnegative(banked)
    && NoRepeats(order) && (forall id :: id in order <==> id in banked)
    && (forall id :: id in closed && id in banked ==> banked[id].phase == Closed && banked[id].key == closed[id].key)
    && (!evicted ==> forgotten == map[] && closed.Keys <= banked.Keys)
    && Positive(forgotten)
  }

  /** The LRU order is no longer than the number of ids accounted for, and shorter while one of them is live. */
  lemma OrderWithin(active: Ledger, banked: Ledger, order: seq<Id>, closed: map<Id, Shown>,
                    forgotten: map<Key, Bytes>, evicted: bool)
    requires Sound(active, banked, order, closed, forgotten, evicted)
    ensures |order| <= |active + banked| && (active != map[] ==> |order| < |active + banked|)
  {
    SeqSize(order, banked.Keys);
    SizeSplits(active, banked);
  }

  lemma SoundWithout(active: Ledger, banked: Ledger, order: seq<Id>, closed: map<Id, Shown>,
                     forgotten: map<Key, Bytes>, evicted: bool, id: Id)
    requires Sound(active, banked, order, closed, forgotten, evicted) && id in banked && id !in closed
    ensures Sound(active, banked - {id}, Removed(order, id), closed, forgotten, evicted)
    ensures active + (banked - {id}) == (active + banked) - {id} && Nonnegative(banked) && Positive(forgotten)
  {
    RemovedFacts(order, id);
  }

  lemma SoundEvict(active: Ledger, banked: Ledger, order: seq<Id>, closed: map<Id, Shown>,
                   forgotten: map<Key, Bytes>, evicted: bool)
    requires Sound(active, banked, order, closed, forgotten, evicted) && order != []
    ensures order[0] in banked
    ensures Sound(active, banked - {order[0]}, order[1..], closed, Credit(forgotten, banked[order[0]]), true)
  {
    assert order[0] in order;
    assert forall x :: x in order <==> x == order[0] || x in order[1..];
    CreditAt(forgotten, banked[order[0]]);
    assert forall m :: 0 <= Share(banked[order[0]], m);
  }

  lemma SoundWith(active: Ledger, banked: Ledger, order: seq<Id>, closed: map<Id, Shown>,
                  forgotten: map<Key, Bytes>, evicted: bool, id: Id, a: Account)
    requires Sound(active, banked, order, closed, forgotten, evicted)
    requires id !in active && id !in banked && id !in closed && Leq(ZERO, a.bytes) && a.phase != Active
    ensures Sound(active, banked[id := a], Removed(order, id) + [id], closed, forgotten, evicted)
  {
    RemovedFacts(order, id);
  }

  lemma SoundPop(active: Ledger, banked: Ledger, order: seq<Id>, closed: map<Id, Shown>,
                 forgotten: map<Key, Bytes>, evicted: bool, id: Id)
    requires Sound(active, banked, order, closed, forgotten, evicted) && id in active
    ensures Sound(active - {id}, banked, order, closed, forgotten, evicted)
    ensures (active - {id}) + banked == (active + banked) - {id}
    ensures Get(active + banked, id) == Some(active[id])
    ensures id !in banked && id !in closed && Leq(ZERO, active[id].bytes)
  {
  }

  lemma SoundActivate(active: Ledger, banked: Ledger, order: seq<Id>, closed: map<Id, Shown>,
                      forgotten: map<Key, Bytes>, evicted: bool, id: Id, a: Account)
    requires Sound(active, banked, order, closed, forgotten, evicted)
    requires id !in banked && id !in closed && a.phase == Active && Leq(ZERO, a.bytes)
    ensures Sound(active[id := a], banked, order, closed, forgotten, evicted)
    ensures active[id := a] + banked == (active + banked)[id := a]
    ensures Get(active + banked, id) == Get(active, id)
  {
  }

  lemma SoundShow(active: Ledger, banked: Ledger, order: seq<Id>, closed: map<Id, Shown>,
                  forgotten: map<Key, Bytes>, evicted: bool, id: Id, shown: Shown)
    requires Sound(active, banked, order, closed, forgotten, evicted) && id !in active
    requires id in banked ==> banked[id].phase == Closed && banked[id].key == shown.key
    requires !evicted ==> id in banked
    ensures Sound(active, banked, order, closed[id := shown], forgotten, evicted)
  {
  }

  lemma SoundUnshow(active: Ledger, banked: Ledger, order: seq<Id>, closed: map<Id, Shown>,
                    forgotten: map<Key, Bytes>, evicted: bool, id: Id)
    requires Sound(active, banked, order, closed, forgotten, evicted)
    ensures Sound(active, banked, order, closed - {id}, forgotten, evicted)
  {
  }

  lemma SoundView(active: Ledger, banked: Ledger, order: seq<Id>, closed: map<Id, Shown>,
                  forgotten: map<Key, Bytes>, evicted: bool)
    requires Sound(active, banked, order, closed, forgotten, evicted)
    ensures Nonnegative(active + banked) && active.Keys !! banked.Keys
  {
  }

  /** Everything on display closed recently enough. */
  predicate Recent(closed: map<Id, Shown>, now: int, ttl: int) {
    forall id :: id in closed ==> now - closed[id].closedAt <= ttl
  }

  /** An update, and an event of an unknown kind, leave the display cache as it is. */
  lemma QuietDisplay(active: Ledger, banked: Ledger, closed: map<Id, Shown>, e: Event, now: int)
    ensures e.kind == Update || e.kind == Unknown ==> Displayed(active, banked, closed, e, now, closed)
  {
  }

  lemma EventMoves(l: Ledger, e: Event, m: Meter)
    ensures Sum(Apply(l, e), m) == Sum(l, m) + Moves(l, e, false, m)
  {
    OneAccountChanges(l, e);
    SumPut(l, e.id, Get(Apply(l, e), e.id), m);
  }

  /** The delta an update reports, on the meters of the connection's key. */
  function DeltaOn(e: Event, key: Key, m: Meter): int {
    if m.key != key then 0 else if m.dir == Up then e.upDelta else e.downDelta
  }

  /** Deltas add up: the meter of the connection's key moves by exactly the delta, and no other moves. */
  lemma DeltasMove(l: Ledger, e: Event)
    requires e.kind == Update && e.id in l && l[e.id].phase == Active
    requires e.fields.Some? ==>
      && e.fields.value.up.None? && e.fields.value.down.None?
      && (Named(e.fields.value.key) ==> e.fields.value.key == l[e.id].key)
    ensures forall m :: Moves(l, e, false, m) == DeltaOn(e, l[e.id].key, m)
  {
  }

  /** A closed row leaves its connection not live. */
  lemma ClosedRowEnds(l: Ledger, id: Id, f: Fields, active: Ledger)
    ensures LiveAfter(active, id, Settled(Get(l, id), f.key, Totals(f))) == active - {id}
  {
  }

  /** By how much an event moves a meter: by what its own account gains there, and not at all if it is passed over. */
  function Moves(l: Ledger, e: Event, shadowed: bool, m: Meter): int {
    if shadowed then 0 else OptShare(Get(Apply(l, e), e.id), m) - OptShare(Get(l, e.id), m)
  }

  /** What happens to a tracker: a batch comes, or a snapshot is taken. */
  datatype Turn = Feed(batch: Batch, now: int) | Look(now: int)

  /** All that is said in a history. */
  function SaidIn(turns: seq<Turn>): seq<Event> {
    if turns == [] then []
    else
      var last := turns[|turns| - 1];
      SaidIn(turns[..|turns| - 1]) + if last.Feed? then SaidBy(last.batch) else []
  }

  function LedgerAfter(l: Ledger, turns: seq<Turn>): Ledger {
    if turns == [] then l
    else
      var before, last := LedgerAfter(l, turns[..|turns| - 1]), turns[|turns| - 1];
      if last.Feed? then TrafficLedger.ApplyBatch(before, last.batch) else before
  }

  /** Every reset of the history names the connection. */
  predicate NamedThroughout(turns: seq<Turn>, id: Id) {
    forall i :: 0 <= i < |turns| && turns[i].Feed? && turns[i].batch.reset ==> id in Seen(turns[i].batch.events)
  }

  /**
    The live connections that every reset names and of which only steady things are said are
    live at the end, each with exactly what was said on top of what it had.
    */
  ghost predicate LiveThrough(before: Ledger, turns: seq<Turn>, after: Ledger) {
    forall id :: id in before && Steady(SaidIn(turns), id, before[id].key) && NamedThroughout(turns, id) ==>
      id in after && after[id] == Account(before[id].key, ClaimedFrom(before[id].bytes, SaidIn(turns), id), Active)
  }

  lemma LiveThroughNothing(active: Ledger)
    requires StaysLive(active, [], active)
    ensures LiveThrough(active, [], active)
  {
  }

  lemma LiveThroughStep(before: Ledger, turns: seq<Turn>, i: nat, mid: Ledger)
    requires i < |turns| && LiveThrough(before, turns[..i], mid)
    ensures turns[i].Look? ==> LiveThrough(before, turns[..i + 1], mid)
    ensures turns[i].Feed? ==>
      forall after :: BatchKeepsLive(mid, turns[i].batch, after) ==> LiveThrough(before, turns[..i + 1], after)
  {
    var told, turn := turns[..i], turns[i];
    assert turns[..i + 1][..i] == told;
    assert turn.Look? ==> SaidIn(turns[..i + 1]) == SaidIn(told);
    var heard := turns[..i + 1];
    forall id | id in before && Steady(SaidIn(heard), id, before[id].key) && NamedThroughout(heard, id)
      ensures Steady(SaidIn(told), id, before[id].key) && NamedThroughout(told, id)
      ensures turn.Feed? ==>
        && Steady(SaidBy(turn.batch), id, before[id].key)
        && (turn.batch.reset ==> id in Seen(turn.batch.events))
        && ClaimedFrom(before[id].bytes, SaidIn(turns[..i + 1]), id) ==
           ClaimedFrom(ClaimedFrom(before[id].bytes, SaidIn(told), id), SaidBy(turn.batch), id)
    {
      var more := if turn.Feed? then SaidBy(turn.batch) else [];
      SteadyParts(SaidIn(told), more, id, before[id].key);
      ClaimedConcat(before[id].bytes, SaidIn(told), more, id);
      assert forall k :: 0 <= k < i ==> turns[..i + 1][k] == told[k];
      assert turns[..i + 1][i] == turn;
    }
  }

  lemma SteadyParts(a: seq<Event>, b: seq<Event>, id: Id, key: Key)
    requires Steady(a + b, id, key)
    ensures Steady(a, id, key) && Steady(b, id, key)
  {
    assert forall i :: 0 <= i < |a| ==> (a + b)[i] == a[i];
    assert forall i :: 0 <= i < |b| ==> (a + b)[|a| + i] == b[i];
  }

  class Tracker {
    var active: Ledger
    var banked: Ledger
    var order: seq<Id>              // banked ids, least recently banked first
    var closed: map<Id, Shown>
    var finalized: map<Key, Bytes>
    var abandonedOnReset: nat
    const cap: nat
    /** What evicted records still contribute to `finalized`, and whether there were any. */
    ghost var forgotten: map<Key, Bytes>
    ghost var evicted: bool

    /** Every id this tracker accounts for, live or banked. */
    ghost function View(): Ledger
      reads this`active, this`banked
    {
      active + banked
    }

    /** The total the snapshot reports for a meter: live connections plus the bank. */
    ghost function Total(m: Meter): int
      reads this`active, this`finalized
    {
      Sum(active, m) + At(finalized, m)
    }

    ghost predicate Shape()
      reads this`active, this`banked, this`order, this`closed, this`forgotten, this`evicted
    {
      Sound(active, banked, order, closed, forgotten, evicted)
    }

    ghost predicate Valid()
      reads this`active, this`banked, this`order, this`closed, this`finalized, this`forgotten, this`evicted
    {
      Shape() && Balanced(finalized, banked, forgotten, None)
    }

    /** The books now stand for ledger `l`, apart from what eviction has since forgotten. */
    ghost predicate StandsFor(l: Ledger, before: map<Key, Bytes>)
      reads this`active, this`banked, this`order, this`finalized, this`evicted
    {
      && (forall m :: Total(m) == Sum(l, m) + At(before, m))
      && Part(View(), l) && (View() == l || (evicted && |order| == cap))
    }

    /** Each id counted once: the reported total is the ledger's, plus evicted history. */
    lemma TotalIsTheLedgers(m: Meter)
      requires Valid()
      ensures Total(m) == Sum(View(), m) + At(forgotten, m)
    {
      SumDisjoint(active, banked, m);
    }

    lemma TotalsStand()
      requires Valid()
      ensures forall m :: Total(m) == Sum(View(), m) + At(forgotten, m)
    {
      forall m ensures Total(m) == Sum(View(), m) + At(forgotten, m) { TotalIsTheLedgers(m); }
    }

    lemma StandsForItself()
      requires Valid()
      ensures StandsFor(View(), forgotten)
    {
      forall m ensures Total(m) == Sum(View(), m) + At(forgotten, m) { TotalIsTheLedgers(m); }
    }

    lemma MissingAreLive(seen: set<Id>)
      requires Valid()
      ensures Missing(View(), seen) == Missing(active, seen) == active.Keys - seen
      ensures active.Keys <= View().Keys
    {
    }

    lemma RoomLeft()
      requires Valid()
      ensures |order| <= |View()| && (active != map[] ==> |order| < |View()|)
    {
      OrderWithin(active, banked, order, closed, forgotten, evicted);
    }

    constructor (cap: nat)
      ensures Valid() && View() == map[] && !evicted && this.cap == cap && Warranted(View(), [])
      ensures forall m :: Total(m) == 0
    {
      active, banked, order, closed, finalized := map[], map[], [], map[], map[];
      abandonedOnReset := 0;
      this.cap := cap;
      forgotten, evicted := map[], false;
    }

    method Bank(a: Account)
      modifies this`finalized
      ensures finalized == Credit(old(finalized), a)
    {
      var slot := SlotOf(finalized, a.key);
      finalized := finalized[a.key := Bytes(slot.up + a.bytes.up, slot.down + a.bytes.down)];
    }

    method Unbank(a: Account)
      modifies this`finalized
      ensures finalized == Debit(old(finalized), a)
    {
      var slot := SlotOf(finalized, a.key);
      finalized := finalized[a.key := Bytes(Max(0, slot.up - a.bytes.up), Max(0, slot.down - a.bytes.down))];
    }

    /** `_record_banked`: most recently banked last; past the cap the least recent records are forgotten. */
    method RecordBanked(id: Id, a: Account)
      requires Shape() && Balanced(finalized, banked, forgotten, Some(a)) && Leq(ZERO, a.bytes) && a.phase != Active
      requires id !in active && id !in banked && id !in closed
      modifies this`banked, this`order, this`forgotten, this`evicted
      ensures Valid() && (old(evicted) ==> evicted) && |order| <= cap
      ensures !old(evicted) && |old(order)| < cap ==> !evicted
      ensures banked == old(banked)[id := a] || (evicted && |order| == cap)
      ensures var all := Removed(old(order), id) + [id]; order == if |all| <= cap then all else all[|all| - cap..]
      ensures Part(banked, old(banked)[id := a])
    {
      hide Sound, Balanced, Part, Sum;
      SoundWith(active, banked, order, closed, forgotten, evicted, id, a);
      RecordingBalances(finalized, banked, forgotten, id, a);
      order := Removed(order, id) + [id];
      banked := banked[id := a];
      RemovedSize(old(order), id);
      PartItself(banked);
      ghost var all := order;
      assert Newest(all, order, cap);
      while |order| > cap
        invariant Valid() && (old(evicted) ==> evicted)
        invariant !old(evicted) && |old(order)| < cap ==> !evicted && |order| <= cap
        invariant banked == old(banked)[id := a] || (evicted && |order| >= cap)
        invariant Newest(all, order, cap)
        invariant Part(banked, old(banked)[id := a])
        invariant id !in closed && id !in active
      {
        PartLess(banked, old(banked)[id := a], order[0]);
        NewestLess(all, order, cap);
        EvictOldest();
      }
      NewestEnds(all, order, cap);
    }

    method EvictOldest()
      requires Valid() && order != []
      modifies this`banked, this`order, this`forgotten, this`evicted
      ensures Valid() && evicted && order == old(order)[1..]
      ensures banked == old(banked) - {old(order[0])}
    {
      var id := order[0];
      SoundEvict(active, banked, order, closed, forgotten, evicted);
      ForgettingBalances(finalized, banked, forgotten, id);
      forgotten := Credit(forgotten, banked[id]);
      evicted := true;
      banked := banked - {id};
      order := order[1..];
    }

    /** `_drop_banked` and `_unbank_record`: the clamp at zero never has anything to clamp. */
    method Release(id: Id) returns (a: Account)
      requires Valid() && id in banked && id !in closed
      modifies this`banked, this`order, this`finalized
      ensures Valid() && a == old(banked[id])
      ensures banked == old(banked) - {id} && View() == old(View()) - {id} && |order| <= |old(order)|
    {
      hide Sound, Balanced, Nonnegative, Positive, Debit;
      a := banked[id];
      RemovedSize(order, id);
      SoundWithout(active, banked, order, closed, forgotten, evicted, id);
      DebitIsExact(finalized, banked, forgotten, id);
      banked := banked - {id};
      order := Removed(order, id);
      Unbank(a);
    }

    /** Bank an account and register it, as both callers do. */
    method Deposit(id: Id, a: Account)
      requires Valid() && id !in active && id !in banked && id !in closed && Leq(ZERO, a.bytes) && a.phase != Active
      modifies this`banked, this`order, this`forgotten, this`evicted, this`finalized
      ensures Valid() && (old(evicted) ==> evicted) && finalized == Credit(old(finalized), a)
      ensures Part(banked, old(banked)[id := a])
      ensures banked == old(banked)[id := a] || (evicted && |order| == cap)
      ensures !old(evicted) && |old(order)| < cap ==> !evicted
    {
      hide Sound, Balanced, Part, Sum;
      CreditBalances(finalized, banked, forgotten, a);
      Bank(a);
      RecordBanked(id, a);
    }

    /** `_finalize`: bank a connection that is neither live nor banked, exactly once. */
    method Finalize(id: Id, key: Key, b: Bytes, closedAt: int, now: int)
      requires Valid() && id !in active && id !in banked && id !in closed && Leq(ZERO, b)
      modifies this`banked, this`order, this`forgotten, this`evicted, this`finalized, this`closed
      ensures Valid() && (old(evicted) ==> evicted)
      ensures StandsFor(old(View())[id := Account(key, b, Closed)], old(forgotten))
      ensures !old(evicted) && |old(order)| < cap ==> !evicted
      ensures id in closed && closed == old(closed)[id := closed[id]]
      ensures closed[id].key == key && IsMoment(closed[id].closedAt, closedAt, now)
    {
      hide Sound, Balanced;
      ghost var l := View();
      var a := Account(key, b, Closed);
      Books();
      StandsForItself();
      SumWith(l, id, a);
      CreditAt(finalized, a);
      Deposit(id, a);
      var moment := ToSeconds(closedAt);
      var shown := Shown(key, if moment != 0 then moment else now);
      SoundShow(active, banked, order, closed, forgotten, evicted, id, shown);
      closed := closed[id := shown];
      PartWith(active, old(banked), id, a, banked);
    }

    /** The account is forgotten, but the display cache still shows the connection. */
    predicate OnlyShown(id: Id)
      reads this`active, this`banked, this`closed
    {
      id !in active && id !in banked && id in closed
    }

    /** `_upsert_active`: a live row refreshes its account, reopens a banked one, or opens a new one. */
    method UpsertActive(id: Id, f: Fields)
      requires Valid() && Named(f.key)
      modifies this`active, this`banked, this`order, this`finalized, this`closed
      ensures Valid()
      ensures if old(OnlyShown(id) && closed[id].key != f.key) then View() == old(View()) && active == old(active)
              else
                var after := Observed(Get(old(View()), id), f.key, Totals(f));
                View() == Put(old(View()), id, after) && active == LiveAfter(old(active), id, after)
      ensures closed == if old((id in closed && closed[id].key != f.key) || (id in banked && banked[id].key != f.key))
                        then old(closed) else old(closed) - {id}
    {
      if id in active {
        var a := active[id];
        if Compatible(a.key, f) {
          var raised := a.(bytes := Raise(a.bytes, Totals(f)));
          SoundActivate(active, banked, order, closed, forgotten, evicted, id, raised);
          active := active[id := raised];
        } else {
          assert Put(View(), id, Some(a)) == View();
        }
        return;
      }
      if (id in closed && closed[id].key != f.key) || (id !in closed && id in banked && banked[id].key != f.key) {
        assert id in banked ==> Put(View(), id, Get(View(), id)) == View();
        return;
      }
      Reopen(id, f);
    }

    method Reopen(id: Id, f: Fields)
      requires Valid() && id !in active
      requires (id in closed ==> closed[id].key == f.key) && (id in banked ==> banked[id].key == f.key)
      modifies this`active, this`banked, this`order, this`finalized, this`closed
      ensures Valid()
      ensures View() == Put(old(View()), id, Observed(Get(old(View()), id), f.key, Totals(f)))
      ensures active == LiveAfter(old(active), id, Observed(Get(old(View()), id), f.key, Totals(f)))
      ensures closed == old(closed) - {id}
    {
      hide Sound, Balanced, Sum, Settled;
      ghost var l := View();
      SoundUnshow(active, banked, order, closed, forgotten, evicted, id);
      closed := closed - {id};
      var b := Totals(f);
      if id in banked {
        var carried := Release(id);
        b := Raise(carried.bytes, b);
      }
      var a := Account(f.key, b, Active);
      SoundActivate(active, banked, order, closed, forgotten, evicted, id, a);
      active := active[id := a];
      PutOver(l, id, a);
    }

    /** A live connection gets its closure. */
    method CloseActive(id: Id, b: Bytes, closedAt: int, now: int)
      requires Valid() && id in active && Leq(ZERO, b)
      modifies this
      ensures Valid() && (old(evicted) ==> evicted) && abandonedOnReset == old(abandonedOnReset)
      ensures StandsFor(old(View())[id := Account(old(active[id].key), b, Closed)], old(forgotten))
      ensures active == old(active) - {id}
      ensures !old(evicted) && |old(order)| < cap ==> !evicted
      ensures id in closed && closed == old(closed)[id := closed[id]]
      ensures closed[id].key == old(active[id].key) && IsMoment(closed[id].closedAt, closedAt, now)
    {
      var key := active[id].key;
      SoundPop(active, banked, order, closed, forgotten, evicted, id);
      PutOver(View(), id, Account(key, b, Closed));
      active := active - {id};
      Finalize(id, key, b, closedAt, now);
    }

    /** An abandoned bound gives way to the true final total. */
    method ReplaceBound(id: Id, b: Bytes, closedAt: int, now: int)
      requires Valid() && id in banked && banked[id].phase == Abandoned && Leq(ZERO, b)
      modifies this
      ensures Valid() && (old(evicted) ==> evicted) && abandonedOnReset == old(abandonedOnReset)
      ensures StandsFor(old(View())[id := Account(old(banked[id].key), b, Closed)], old(forgotten))
      ensures active == old(active)
      ensures !old(evicted) && |old(order)| < cap ==> !evicted
      ensures id in closed && closed == old(closed)[id := closed[id]]
      ensures closed[id].key == old(banked[id].key) && IsMoment(closed[id].closedAt, closedAt, now)
    {
      PutOver(View(), id, Account(banked[id].key, b, Closed));
      var bound := Release(id);
      Finalize(id, bound.key, b, closedAt, now);
    }

    /** `_record_closed_row`: a closed connection announced as new, once or again. */
    method RecordClosedRow(id: Id, f: Fields, now: int)
      requires Valid()
      modifies this
      ensures Valid() && (old(evicted) ==> evicted) && abandonedOnReset == old(abandonedOnReset)
      ensures StandsFor(if old(OnlyShown(id)) then old(View())
                        else Put(old(View()), id, Settled(Get(old(View()), id), f.key, Totals(f))), old(forgotten))
      ensures active == old(active) - {id}
      ensures !old(evicted) && |old(order)| < cap ==> !evicted
      ensures f.closedAt != 0 ==>
        Displayed(old(active), old(banked), old(closed), Event(New, id, Some(f), 0, 0, 0), now, closed)
    {
      StandsForItself();
      PutSame(View(), id);
      if id in banked {
        if banked[id].key == f.key && banked[id].phase == Abandoned {
          ReplaceBound(id, Totals(f), ToSeconds(f.closedAt), now);
        }
      } else if id in closed {
      } else if id in active {
        CloseActive(id, Raise(active[id].bytes, Totals(f)), ToSeconds(f.closedAt), now);
      } else {
        Finalize(id, f.key, Totals(f), ToSeconds(f.closedAt), now);
      }
    }

    /** A connection is live or banked, not both; a live one is not in the display cache; no bytes are negative. */
    lemma Books()
      requires Valid()
      ensures active.Keys !! banked.Keys && active.Keys !! closed.Keys
      ensures forall id :: id in active ==> active[id].phase == Active && Leq(ZERO, active[id].bytes)
      ensures forall id :: id in banked ==> banked[id].phase != Active && Leq(ZERO, banked[id].bytes)
    {
    }

    method ApplyUpdate(e: Event)
      requires Valid() && e.kind == Update
      modifies this`active
      ensures Valid() && StandsFor(old(Next(e)), forgotten) && active == old(NextLive(e))
    {
      hide Sound, Balanced, Part, Sum;
      Books();
      StandsForItself();
      PutSame(View(), e.id);
      if e.id !in active { return; }
      var a := active[e.id];
      if e.fields.Some? && !Compatible(a.key, e.fields.value) { return; }
      if e.fields.Some? && (e.fields.value.up.Some? || e.fields.value.down.Some?) {
        if e.fields.value.up.Some? { a := a.(bytes := a.bytes.(up := Max(a.bytes.up, e.fields.value.up.value))); }
        if e.fields.value.down.Some? {
          a := a.(bytes := a.bytes.(down := Max(a.bytes.down, e.fields.value.down.value)));
        }
      } else {
        a := a.(bytes := Bytes(a.bytes.up + e.upDelta, a.bytes.down + e.downDelta));
      }
      SoundActivate(active, banked, order, closed, forgotten, evicted, e.id, a);
      active := active[e.id := a];
      StandsForItself();
    }

    method ApplyClose(e: Event, now: int)
      requires Valid() && e.kind == Close
      modifies this
      ensures Valid() && (old(evicted) ==> evicted) && abandonedOnReset == old(abandonedOnReset)
      ensures StandsFor(old(Next(e)), old(forgotten)) && active == old(NextLive(e))
      ensures !old(evicted) && |old(order)| < cap ==> !evicted
      ensures Displayed(old(active), old(banked), old(closed), e, now, closed)
    {
      hide Sound, Balanced, Part, Sum;
      Books();
      StandsForItself();
      PutSame(View(), e.id);
      var stated := if e.closedAt != 0 then e.closedAt else if e.fields.Some? then e.fields.value.closedAt else 0;
      if e.id in active {
        var a := active[e.id];
        var b := a.bytes;
        if e.fields.Some? && Compatible(a.key, e.fields.value) {
          b := RaiseCarried(b, e.fields.value);
        }
        CloseActive(e.id, b, stated, now);
      } else if e.id in banked && banked[e.id].phase == Abandoned && e.fields.Some?
                && banked[e.id].key == e.fields.value.key {
        ReplaceBound(e.id, Totals(e.fields.value), if stated != 0 then ToSeconds(stated) else now, now);
      }
    }

    /**
      The connection of this row is forgotten, and the display cache says the row is no news:
      it is a closure, or of another identity.
      */
    predicate Shadowed(e: Event)
      reads this`active, this`banked, this`closed
    {
      && e.kind == New && e.fields.Some? && OnlyShown(e.id)
      && (e.fields.value.closedAt != 0 ||
          (e.id != 0 && Named(e.fields.value.key) && closed[e.id].key != e.fields.value.key))
    }

    /** The ledger an event leads to: a shadowed row is passed over. */
    ghost function Next(e: Event): Ledger
      reads this`active, this`banked, this`closed
    {
      if Shadowed(e) then View() else Apply(View(), e)
    }

    /** The live rows it leads to. */
    ghost function NextLive(e: Event): Ledger
      reads this`active, this`banked, this`closed
    {
      if Shadowed(e) then active else LiveAfter(active, e.id, Get(Apply(View(), e), e.id))
    }

    /** Until something is evicted no row is shadowed. */
    /** An update without totals for a live connection, of its identity or of none. */
    predicate Adds(e: Event)
      reads this`active
    {
      && e.kind == Update && e.id in active
      && (e.fields.Some? ==>
            && e.fields.value.up.None? && e.fields.value.down.None?
            && (Named(e.fields.value.key) ==> e.fields.value.key == active[e.id].key))
    }

    lemma AddsLive(e: Event)
      requires Valid() && Adds(e)
      ensures e.id in View() && View()[e.id] == active[e.id] && active[e.id].phase == Active && !Shadowed(e)
    {
    }

    lemma NextLiveKeys(e: Event)
      ensures NextLive(e).Keys - {e.id} == active.Keys - {e.id}
    {
    }

    /** The live connections of `before` go on as what is said of them has it. */
    lemma LiveStep(before: Ledger, said: seq<Event>, e: Event)
      requires Valid() && StaysLive(before, said, active)
      ensures StaysLive(before, said + [e], NextLive(e))
    {
      if Shadowed(e) {
        forall id | id in before && Steady(said + [e], id, before[id].key)
          ensures id != e.id && ClaimedFrom(before[id].bytes, said + [e], id) == ClaimedFrom(before[id].bytes, said, id)
        {
          assert forall i :: 0 <= i < |said| ==> (said + [e])[i] == said[i];
          assert (said + [e])[..|said|] == said;
          assert Steady(said, id, before[id].key);
        }
      } else {
        SoundView(active, banked, order, closed, forgotten, evicted);
        LiveHears(before, said, active, View(), e);
      }
    }

    lemma LivePhases()
      requires Valid()
      ensures StaysLive(active, [], active)
    {
    }

    lemma NextIsApply(e: Event)
      requires Valid()
      ensures !evicted ==> !Shadowed(e)
      ensures Shadowed(e) ==> e.id !in View()
      ensures Next(e) == if Shadowed(e) then View() else Apply(View(), e)
      ensures e.kind == Unknown ==> Next(e) == View() && NextLive(e) == active
    {
      if e.kind == Unknown { assert e.id in banked ==> e.id !in active; }
    }

    method ApplyNew(e: Event, now: int)
      requires Valid() && e.kind == New
      modifies this
      ensures Valid() && (old(evicted) ==> evicted) && abandonedOnReset == old(abandonedOnReset)
      ensures StandsFor(old(Next(e)), old(forgotten)) && active == old(NextLive(e))
      ensures !old(evicted) && |old(order)| < cap ==> !evicted
      ensures Displayed(old(active), old(banked), old(closed), e, now, closed)
    {
      StandsForItself();
      PutSame(View(), e.id);
      if e.fields.None? { return; }
      var f := e.fields.value;
      if f.closedAt != 0 || (e.id != 0 && Named(f.key)) { TakeRow(e.id, f, e, now); }
    }

    /** A row that announces a connection, closed or live. */
    method TakeRow(id: Id, f: Fields, ghost e: Event, now: int)
      requires Valid() && e.kind == New && e.id == id && e.fields == Some(f)
      requires f.closedAt != 0 || (id != 0 && Named(f.key))
      modifies this
      ensures Valid() && (old(evicted) ==> evicted) && abandonedOnReset == old(abandonedOnReset)
      ensures StandsFor(old(Next(e)), old(forgotten)) && active == old(NextLive(e))
      ensures !old(evicted) && |old(order)| < cap ==> !evicted
      ensures Displayed(old(active), old(banked), old(closed), e, now, closed)
    {
      hide Sound, Balanced, Part, Sum;
      if f.closedAt != 0 {
        RecordClosedRow(id, f, now);
        ClosedRowEnds(old(View()), id, f, old(active));
      } else {
        UpsertActive(id, f);
        StandsForItself();
      }
    }

    /** What following an event means for the books and the reported totals, evicted or not. */
    lemma FollowingIsExact(l: Ledger, e: Event, shadowed: bool, next: Ledger, before: map<Key, Bytes>)
      requires Valid() && Nonnegative(l) && (shadowed ==> e.id !in l)
      requires next == (if shadowed then l else Apply(l, e)) && StandsFor(next, before)
      ensures (forall m :: Sum(l, m) + At(before, m) <= Total(m)) <==> !Lowers(l, e)
      ensures Part(View(), Apply(l, e)) || Part(View(), l)
      ensures forall m :: Total(m) == Sum(l, m) + At(before, m) + Moves(l, e, shadowed, m)
      ensures View() == next || (evicted && |order| == cap)
    {
      hide Sum, At, Sound, Balanced, Part;
      TotalsNeverGoDown(l, e);
      if !shadowed {
        forall m ensures Sum(next, m) == Sum(l, m) + Moves(l, e, false, m) { EventMoves(l, e, m); }
        assert forall m :: Sum(l, m) + At(before, m) <= Total(m) <==> Sum(l, m) <= Sum(next, m);
      }
    }

    /**
      `_apply_event`. While nothing has been evicted the books stand for exactly
      the ledger after the event; evicted or not, some reported total goes down
      if and only if the event lowers an abandoned bound.
      */
    method ApplyEvent(e: Event, now: int)
      requires Valid()
      modifies this
      ensures Valid() && (old(evicted) ==> evicted) && abandonedOnReset == old(abandonedOnReset)
      ensures !evicted ==> View() == Apply(old(View()), e)
      ensures View() == old(Next(e)) || |order| == cap
      ensures old(Adds(e)) ==> forall m :: Total(m) == old(Total(m)) + DeltaOn(e, old(active)[e.id].key, m)
      ensures (forall m :: old(Total(m)) <= Total(m)) <==> !Lowers(old(View()), e)
      ensures Part(View(), Apply(old(View()), e)) || Part(View(), old(View()))
      ensures forall m :: Total(m) == old(Total(m)) + Moves(old(View()), e, old(Shadowed(e)), m)
      ensures active == old(NextLive(e))
      ensures !old(evicted) && |old(View())| < cap ==> !evicted && |View()| <= |old(View())| + 1
      ensures Displayed(old(active), old(banked), old(closed), e, now, closed)
    {
      hide Sound, Balanced, Part, Sum, Apply, LiveAfter, Moves, StandsFor, Next, NextLive, Shadowed, Lowers, Displayed;
      StandsForItself();
      TotalsStand();
      SoundView(active, banked, order, closed, forgotten, evicted);
      RoomLeft();
      NextIsApply(e);
      QuietDisplay(active, banked, closed, e, now);
      if Adds(e) { AddsLive(e); }
      EventGrows(View(), e);
      match e.kind {
        case New => ApplyNew(e, now);
        case Update => ApplyUpdate(e);
        case Close => ApplyClose(e, now);
        case Unknown =>
      }
      FollowingIsExact(old(View()), e, old(Shadowed(e)), old(Next(e)), old(forgotten));
      if old(Adds(e)) { DeltasMove(old(View()), e); }
    }

    /** One row of a reset. */
    method ReplayRow(e: Event, now: int)
      requires Valid() && Usable(e)
      modifies this
      ensures Valid() && (old(evicted) ==> evicted) && abandonedOnReset == old(abandonedOnReset)
      ensures !evicted ==> View() == Apply(old(View()), AsNew(e))
      ensures (forall m :: old(Total(m)) <= Total(m)) <==> !Lowers(old(View()), AsNew(e))
      ensures Part(View(), Apply(old(View()), AsNew(e))) || Part(View(), old(View()))
      ensures forall m :: Total(m) == old(Total(m)) + Moves(old(View()), AsNew(e), old(Shadowed(AsNew(e))), m)
      ensures active == old(NextLive(AsNew(e))) && active.Keys - {ResetId(e)} == old(active).Keys - {ResetId(e)}
      ensures !old(evicted) && |old(View())| < cap ==> !evicted && |View()| <= |old(View())| + 1
      ensures Displayed(old(active), old(banked), old(closed), AsNew(e), now, closed)
    {
      hide Sound, Balanced, Part, Sum, Apply, LiveAfter, Moves, StandsFor, Next, NextLive, Shadowed, Lowers;
      StandsForItself();
      TotalsStand();
      SoundView(active, banked, order, closed, forgotten, evicted);
      RoomLeft();
      NextIsApply(AsNew(e));
      EventGrows(View(), AsNew(e));
      NextLiveKeys(AsNew(e));
      TakeRow(ResetId(e), e.fields.value, AsNew(e), now);
      FollowingIsExact(old(View()), AsNew(e), old(Shadowed(AsNew(e))), old(Next(AsNew(e))), old(forgotten));
    }

    /** The first half of `_apply_reset`: replay the server's rows. */
    method ReplayRows(events: seq<Event>, now: int, ghost told: seq<Event>) returns (seen: set<Id>)
      requires Valid()
      modifies this
      ensures Valid() && (old(evicted) ==> evicted) && abandonedOnReset == old(abandonedOnReset)
      ensures !evicted ==> View() == Replay(old(View()), events)
      ensures !old(evicted) && |old(View())| + |events| <= cap ==> !evicted && |View()| <= |old(View())| + |events|
      ensures !Undercuts(old(View()), Batch(true, events)) ==> forall m :: old(Total(m)) <= Total(m)
      ensures Warranted(old(View()), told) ==> Warranted(View(), told + SaidBy(Batch(true, events)))
      ensures seen == Seen(events) && active.Keys - seen == old(active).Keys - seen
      ensures StaysLive(old(active), SaidBy(Batch(true, events)), active)
    {
      hide *;
      ghost var b := Batch(true, events);
      ghost var room := !evicted && |View()| + |events| <= cap;
      seen := {};
      var i := 0;
      BatchStarts(View(), b, told);
      LivePhases();
      while i < |events|
        invariant 0 <= i <= |events|
        invariant Valid() && (old(evicted) ==> evicted) && abandonedOnReset == old(abandonedOnReset)
        invariant !evicted ==> View() == Replay(old(View()), events[..i])
        invariant room ==> !evicted && |View()| <= |old(View())| + i
        invariant Carries(old(View()), told, View(), SaidBy(b)[..i])
        invariant !Undercuts(old(View()), b) ==> forall m :: old(Total(m)) <= Total(m)
        invariant seen == Seen(events[..i]) && active.Keys - seen == old(active).Keys - seen
        invariant StaysLive(old(active), SaidBy(b)[..i], active)
      {
        var e := events[i];
        ghost var v := View();
        SeenExtends(events, i);
        ReplayNext(old(View()), events, i);
        SaidNext(b, i);
        RowSays(v, e);
        NotUndercut(old(View()), b, i);
        if Usable(e) {
          LiveStep(old(active), SaidBy(b)[..i], AsNew(e));
          ghost var live, earlier := active.Keys, seen;
          seen := seen + {ResetId(e)};
          ReplayRow(e, now);
          OthersStay(old(active).Keys, live, active.Keys, earlier, ResetId(e));
        } else {
          SaidNothing(e);
          SilenceKeepsLive(old(active), SaidBy(b)[..i], active, Said(true, e));
        }
        CarriesEvent(old(View()), told, v, SaidBy(b)[..i], Said(true, e), View());
        i := i + 1;
      }
      assert events[..i] == events && SaidBy(b)[..i] == SaidBy(b);
      CarriesWarrant(old(View()), told, View(), SaidBy(b));
    }

    method AbandonOne(id: Id)
      requires Valid() && id in active
      modifies this
      ensures Valid() && (old(evicted) ==> evicted) && abandonedOnReset == old(abandonedOnReset) + 1
      ensures id in old(View()) && active == old(active) - {id}
      ensures !evicted ==> View() == old(View())[id := AbandonedBy(old(View())[id])]
      ensures Part(View(), old(View())[id := AbandonedBy(old(View())[id])])
      ensures forall m :: Total(m) == old(Total(m))
      ensures !old(evicted) && |old(order)| < cap ==> !evicted
      ensures closed == old(closed)
    {
      hide Sound, Balanced, Part, At, Credit, Sum;
      SoundView(active, banked, order, closed, forgotten, evicted);
      var a := AbandonedBy(active[id]);
      abandonedOnReset := abandonedOnReset + 1;
      SoundPop(active, banked, order, closed, forgotten, evicted, id);
      AbandonedTotals(active, finalized, id);
      active := active - {id};
      Deposit(id, a);
      AbandonedView(old(active), old(banked), id, banked);
    }

    /** The second half of `_apply_reset`: live ids the reset left out are banked as lower bounds, not closed. */
    method AbandonMissing(seen: set<Id>)
      requires Valid()
      modifies this
      ensures Valid() && (old(evicted) ==> evicted)
      ensures !evicted ==> View() == Abandon(old(View()), Missing(old(View()), seen))
      ensures Part(View(), Abandon(old(View()), Missing(old(View()), seen)))
      ensures forall m :: Total(m) == old(Total(m))
      ensures abandonedOnReset == old(abandonedOnReset) + |old(active).Keys - seen| && active.Keys <= seen
      ensures forall id :: id in old(active) && id in seen ==> id in active && active[id] == old(active)[id]
      ensures !old(evicted) && |old(View())| <= cap ==> !evicted
      ensures closed == old(closed)
    {
      hide *;
      var missing := Missing(active, seen);
      ghost var l, all := View(), missing;
      MissingAreLive(seen);
      AbandonNone(l, all);
      while missing != {}
        invariant Valid() && (old(evicted) ==> evicted) && closed == old(closed)
        invariant missing <= all && active.Keys == old(active).Keys - (all - missing)
        invariant forall id :: id in active ==> id in old(active) && active[id] == old(active)[id]
        invariant !evicted ==> View() == Abandon(l, all - missing)
        invariant Part(View(), Abandon(l, all - missing))
        invariant forall m :: Total(m) == old(Total(m))
        invariant !old(evicted) && |l| <= cap ==> !evicted
        invariant abandonedOnReset == old(abandonedOnReset) + |all| - |missing|
        decreases missing
      {
        var id :| id in missing;
        AbandonStep(l, all, missing, id);
        ghost var v := View();
        RoomLeft();
        AbandonOne(id);
        PartAbandons(v, Abandon(l, all - missing), id, View());
        missing := missing - {id};
      }
    }

    /**
      `apply_batch`. Evicted or not, no total goes down unless a final total in the
      batch is below a bound held when the batch comes, and no account comes to hold
      more than the server has said of its connection. A reset counts exactly the live
      connections it leaves out, and none of those is live after it.
      */
    method ApplyBatch(b: Batch, now: int, ghost told: seq<Event>)
      requires Valid()
      modifies this
      ensures Valid() && (old(evicted) ==> evicted)
      ensures !evicted ==> View() == TrafficLedger.ApplyBatch(old(View()), b)
      ensures !old(evicted) && |old(View())| + |b.events| <= cap ==> !evicted
      ensures !Undercuts(old(View()), b) ==> forall m :: old(Total(m)) <= Total(m)
      ensures Warranted(old(View()), told) ==> Warranted(View(), told + SaidBy(b))
      ensures abandonedOnReset == old(abandonedOnReset) + if b.reset then |old(active).Keys - Seen(b.events)| else 0
      ensures b.reset ==> active.Keys <= Seen(b.events)
      ensures BatchKeepsLive(old(active), b, active)
    {
      hide StaysLive, BatchKeepsLive;
      if b.reset {
        var seen := ReplayRows(b.events, now, told);
        ghost var v, live := View(), active;
        AbandonMissing(seen);
        ResetKeepsLive(old(active), b, live, active);
        if Warranted(v, told + SaidBy(b)) {
          AbandonIsWarranted(v, Missing(v, seen), told + SaidBy(b), View());
        }
      } else {
        ApplyEvents(b, now, told);
        ResetKeepsLive(old(active), b, active, active);
      }
    }

    /** The loop of an ordinary batch. */
    method ApplyEvents(b: Batch, now: int, ghost told: seq<Event>)
      requires Valid() && !b.reset
      modifies this
      ensures Valid() && (old(evicted) ==> evicted) && abandonedOnReset == old(abandonedOnReset)
      ensures !evicted ==> View() == ApplyAll(old(View()), b.events)
      ensures !old(evicted) && |old(View())| + |b.events| <= cap ==> !evicted
      ensures !Undercuts(old(View()), b) ==> forall m :: old(Total(m)) <= Total(m)
      ensures Warranted(old(View()), told) ==> Warranted(View(), told + SaidBy(b))
      ensures StaysLive(old(active), SaidBy(b), active)
    {
      hide *;
      ghost var room := !evicted && |View()| + |b.events| <= cap;
      var i := 0;
      BatchStarts(View(), b, told);
      LivePhases();
      while i < |b.events|
        invariant 0 <= i <= |b.events|
        invariant Valid() && (old(evicted) ==> evicted) && abandonedOnReset == old(abandonedOnReset)
        invariant !evicted ==> View() == ApplyAll(old(View()), b.events[..i])
        invariant room ==> !evicted && |View()| <= |old(View())| + i
        invariant Carries(old(View()), told, View(), SaidBy(b)[..i])
        invariant !Undercuts(old(View()), b) ==> forall m :: old(Total(m)) <= Total(m)
        invariant StaysLive(old(active), SaidBy(b)[..i], active)
      {
        ghost var v := View();
        LiveStep(old(active), SaidBy(b)[..i], b.events[i]);
        ApplyNext(old(View()), b, i);
        SaidNext(b, i);
        NotUndercut(old(View()), b, i);
        ApplyEvent(b.events[i], now);
        CarriesEvent(old(View()), told, v, SaidBy(b)[..i], b.events[i], View());
        i := i + 1;
      }
      assert b.events[..i] == b.events && SaidBy(b)[..i] == SaidBy(b);
      CarriesWarrant(old(View()), told, View(), SaidBy(b));
    }

    /**
      The same reset delivered twice. The second delivery abandons nothing, whatever has
      been evicted. Until the LRU forgets it changes no account exactly if it changes no
      total, and either exactly if no account the first one leaves live is below the first
      closure the batch reports for it.
      */
    method ResetTwice(events: seq<Event>, now: int) returns (ghost once: Ledger)
      requires Valid()
      modifies this
      ensures Valid() && (old(evicted) ==> evicted)
      ensures abandonedOnReset == old(abandonedOnReset) + |old(active).Keys - Seen(events)|
      ensures active.Keys <= Seen(events)
      ensures !evicted ==>
        && once == Reset(old(View()), events)
        && (View() == once <==> forall id :: !WouldRaise(Get(once, id), Rows(events, id)))
        && ((forall m :: Total(m) == Sum(once, m)) <==> forall id :: !WouldRaise(Get(once, id), Rows(events, id)))
    {
      hide Valid, View, Total, Warranted, Undercuts, Reset, Replay, Seen, WouldRaise, Rows, Sum;
      var b := Batch(true, events);
      BatchIsReset(View(), events);
      ApplyBatch(b, now, []);
      once := View();
      ResetReplayIsIdempotent(old(View()), events);
      BatchIsReset(once, events);
      NoneLeftOut(active.Keys, Seen(events));
      ApplyBatch(b, now, []);
      if !evicted {
        ResetReplayKeepsTotals(old(View()), events);
        forall m ensures Total(m) == Sum(View(), m) { NothingForgotten(m); }
      }
    }

    lemma NothingForgotten(m: Meter)
      requires Valid() && !evicted
      ensures Total(m) == Sum(View(), m)
    {
      hide Sum, Balanced;
      TotalIsTheLedgers(m);
    }

    /** The display cache is pruned by real close time; no account and no total moves. */
    method PruneClosed(now: int, ttl: int)
      requires Valid()
      modifies this`closed
      ensures Valid() && View() == old(View()) && forall m :: Total(m) == old(Total(m))
      ensures forall id :: id in closed <==> id in old(closed) && now - old(closed)[id].closedAt <= ttl
      ensures forall id :: id in closed ==> closed[id] == old(closed)[id]
      ensures Recent(closed, now, ttl)
    {
      closed := map id | id in closed && now - closed[id].closedAt <= ttl :: closed[id];
    }

    /**
      Any history of batches and snapshots, from any state of the books, with or
      without eviction: if the server never reports a final total below what it has said
      of that connection before, no reported total is lower at the end than at the start.
      */
    method Run(turns: seq<Turn>, ttl: int, ghost told: seq<Event>)
      requires Valid() && Warranted(View(), told)
      modifies this
      ensures Valid() && (old(evicted) ==> evicted) && Warranted(View(), told + SaidIn(turns))
      ensures Truthful(told + SaidIn(turns)) ==> forall m :: old(Total(m)) <= Total(m)
      ensures !evicted ==> View() == LedgerAfter(old(View()), turns)
      ensures LiveThrough(old(active), turns, active)
      ensures turns != [] && turns[|turns| - 1].Look? ==> Recent(closed, turns[|turns| - 1].now, ttl)
    {
      hide Valid, View, Total, Warranted, Truthful, Undercuts, BatchKeepsLive, LiveThrough, Recent;
      var i := 0;
      LivePhases();
      LiveThroughNothing(active);
      assert turns[..0] == [] && told + [] == told;
      while i < |turns|
        invariant 0 <= i <= |turns|
        invariant Valid() && (old(evicted) ==> evicted) && Warranted(View(), told + SaidIn(turns[..i]))
        invariant Truthful(told + SaidIn(turns[..i])) ==> forall m :: old(Total(m)) <= Total(m)
        invariant !evicted ==> View() == LedgerAfter(old(View()), turns[..i])
        invariant LiveThrough(old(active), turns[..i], active)
        invariant 0 < i && turns[i - 1].Look? ==> Recent(closed, turns[i - 1].now, ttl)
      {
        LiveThroughStep(old(active), turns, i, active);
        ghost var before := told + SaidIn(turns[..i]);
        assert turns[..i + 1][..i] == turns[..i];
        match turns[i] {
          case Feed(b, now) =>
            assert told + SaidIn(turns[..i + 1]) == before + SaidBy(b);
            if Truthful(before + SaidBy(b)) {
              TruthfulPrefix(before, SaidBy(b));
              TruthDoesNotUndercut(View(), before, b);
            }
            ApplyBatch(b, now, before);
          case Look(now) =>
            assert told + SaidIn(turns[..i + 1]) == before;
            PruneClosed(now, ttl);
        }
        i := i + 1;
      }
      assert turns[..i] == turns;
    }

    /** A protocol's total in `snapshot`: the sum over live rows of the key, plus the bank. */
    method ReportedTotal(m: Meter) returns (total: int)
      requires Valid()
      ensures total == Total(m) == Sum(View(), m) + At(forgotten, m)
    {
      TotalIsTheLedgers(m);
      total := 0;
      var left := active.Keys;
      while left != {}
        invariant left <= active.Keys
        invariant total + SumOver(active, left, m) == Sum(active, m)
        decreases left
      {
        var id :| id in left;
        SumRemove(active, left, id, m);
        if active[id].key == m.key {
          total := total + Amount(active[id].bytes, m.dir);
        }
        left := left - {id};
      }
      total := total + At(finalized, m);
    }
  }

  /** The books after an account was banked and others were forgotten. */
  lemma PartWith(active: Ledger, banked: Ledger, id: Id, a: Account, banked': Ledger)
    requires id !in active && active.Keys !! banked.Keys && Part(banked', banked[id := a])
    ensures Part(active + banked', (active + banked)[id := a])
    ensures banked' == banked[id := a] ==> active + banked' == (active + banked)[id := a]
  {
  }

  lemma PartItself(l: Ledger)
    ensures Part(l, l)
  {
  }

  lemma PartLess(v: Ledger, l: Ledger, id: Id)
    requires Part(v, l)
    ensures Part(v - {id}, l)
  {
  }

  lemma ReplayNext(l: Ledger, events: seq<Event>, i: nat)
    requires i < |events|
    ensures Replay(l, events[..i + 1]) == Apply(Replay(l, events[..i]), Said(true, events[i]))
  {
    assert events[..i + 1][..i] == events[..i];
  }

  lemma SaidNothing(e: Event)
    requires !Usable(e)
    ensures Said(true, e).kind == Unknown
  {
  }

  lemma BatchStarts(l: Ledger, b: Batch, told: seq<Event>)
    ensures Carries(l, told, l, SaidBy(b)[..0]) && Seen(b.events[..0]) == {} && SaidBy(b)[..0] == []
    ensures Replay(l, b.events[..0]) == l && ApplyAll(l, b.events[..0]) == l
  {
    assert SaidBy(b)[..0] == [];
    CarriesNothing(l, told);
  }

  lemma ApplyNext(l: Ledger, b: Batch, i: nat)
    requires i < |b.events| && !b.reset
    ensures ApplyAll(l, b.events[..i + 1]) == Apply(ApplyAll(l, b.events[..i]), b.events[i])
    ensures Said(b.reset, b.events[i]) == b.events[i]
  {
    assert b.events[..i + 1][..i] == b.events[..i];
  }

  lemma EventGrows(l: Ledger, e: Event)
    ensures |Apply(l, e)| <= |l| + 1
  {
    OneAccountChanges(l, e);
    PutGrowsByOne(l, e.id, Get(Apply(l, e), e.id));
  }

  /** Banking a live account as a bound moves no meter. */
  lemma AbandonedTotals(active: Ledger, finalized: map<Key, Bytes>, id: Id)
    requires id in active
    ensures var credited := Credit(finalized, AbandonedBy(active[id]));
      forall m :: Sum(active - {id}, m) + At(credited, m) == Sum(active, m) + At(finalized, m)
  {
    SumWithout(active, id);
    CreditAt(finalized, AbandonedBy(active[id]));
  }

  /** The books after a live account became a bound and others were forgotten. */
  lemma AbandonedView(active: Ledger, banked: Ledger, id: Id, banked': Ledger)
    requires id in active && active.Keys !! banked.Keys && Part(banked', banked[id := AbandonedBy(active[id])])
    ensures var l := active + banked;
      && id in l && Part((active - {id}) + banked', l[id := AbandonedBy(l[id])])
      && (banked' == banked[id := AbandonedBy(active[id])] ==>
            (active - {id}) + banked' == l[id := AbandonedBy(l[id])])
  {
    var a := AbandonedBy(active[id]);
    PartWith(active - {id}, banked, id, a, banked');
    assert (active - {id}) + banked == (active + banked) - {id};
    PutOver(active + banked, id, a);
  }

  lemma PartAbandons(v: Ledger, l: Ledger, id: Id, v': Ledger)
    requires Part(v, l) && id in v && Part(v', v[id := AbandonedBy(v[id])])
    ensures Part(v', l[id := AbandonedBy(l[id])])
  {
  }

  /** A row decides only about its own id. */
  lemma OthersStay(start: set<Id>, before: set<Id>, after: set<Id>, seen: set<Id>, id: Id)
    requires before - seen == start - seen && after - {id} == before - {id}
    ensures after - (seen + {id}) == start - (seen + {id})
  {
    forall x ensures x in after - (seen + {id}) <==> x in start - (seen + {id}) {
      assert x in after - {id} <==> x in before - {id};
      assert x in before - seen <==> x in start - seen;
    }
  }

  lemma NoneLeftOut(live: set<Id>, seen: set<Id>)
    requires live <= seen
    ensures |live - seen| == 0
  {
    assert live - seen == {};
  }

  lemma BatchIsReset(l: Ledger, events: seq<Event>)
    ensures TrafficLedger.ApplyBatch(l, Batch(true, events)) == Reset(l, events)
  {
  }

  lemma SeenExtends(events: seq<Event>, i: nat)
    requires i < |events|
    ensures Seen(events[..i + 1]) == Seen(events[..i]) + if Usable(events[i]) then {ResetId(events[i])} else {}
  {
    var now, earlier := events[..i + 1], events[..i];
    assert forall k :: 0 <= k < i ==> now[k] == earlier[k];
    assert now[i] == events[i];
  }

  lemma AbandonNone(l: Ledger, all: set<Id>)
    ensures Abandon(l, all - all) == l && Abandon(l, all - {}) == Abandon(l, all) && Part(l, l)
  {
    assert all - {} == all;
  }

  lemma AbandonStep(l: Ledger, all: set<Id>, missing: set<Id>, id: Id)
    requires all <= l.Keys && id in missing && missing <= all
    ensures id in Abandon(l, all - missing)
    ensures var now := Abandon(l, all - missing);
      Abandon(l, all - (missing - {id})) == now[id := AbandonedBy(now[id])] && |now| == |l|
  {
    assert Abandon(l, all - missing).Keys == l.Keys;
  }

  lemma PutSame(l: Ledger, id: Id)
    ensures Put(l, id, Get(l, id)) == l
  {
  }

  /** The newest of all these ids, as many as are left, and no fewer than the cap. */
  predicate Newest(all: seq<Id>, order: seq<Id>, cap: nat) {
    |order| <= |all| && order == all[|all| - |order|..] && (|order| == |all| || |order| >= cap)
  }

  lemma NewestLess(all: seq<Id>, order: seq<Id>, cap: nat)
    requires Newest(all, order, cap) && |order| > cap
    ensures Newest(all, order[1..], cap)
  {
  }

  lemma NewestEnds(all: seq<Id>, order: seq<Id>, cap: nat)
    requires Newest(all, order, cap) && |order| <= cap
    ensures order == if |all| <= cap then all else all[|all| - cap..]
  {
  }

  lemma PutOver(l: Ledger, id: Id, a: Account)
    ensures (l - {id})[id := a] == l[id := a]
  {
  }

}
