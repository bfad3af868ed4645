/**
  The identity ledger of the device lifecycle worker (sbox-cm/p6_provision.py) as
  values: the desired-state ledger, the key directory and the registry, and what
  each durable write does to them. Names, labels, hashes and secrets are tokens
  that already have the right form.
  */
module ProvisionLedger {
  import opened Prelude

  const MAX_RECORDS := 4096
  const MAX_IDENTITIES := 64
  const MAX_CONFIRMATIONS := 64

  datatype Desired = Active | Revoked
  datatype Verified = Pending | VerifiedActive | VerifiedRevoked

  datatype Slot = Slot(name: nat, generation: nat, device: nat)
  datatype Labels = Labels(site: nat, path: nat)

  datatype Record = Record(
    slot: Slot, labels: Labels, enrollment: nat, probe: nat, secret: nat,
    desired: Desired, verified: Verified, epoch: Option<int>)

  datatype Ledger = Ledger(binding: nat, records: seq<Record>)

  /** A registry row; a managed row names the key file of its own probe id. */
  datatype Entry = Entry(probe: nat, enabled: bool, labels: Labels, keyFile: nat)

  /** Everything that survives: an absent registry reads as an empty one. */
  datatype Disk = Disk(ledger: Option<Ledger>, keys: map<nat, nat>, registry: seq<Entry>)

  function Records(d: Disk): seq<Record> { if d.ledger.Some? then d.ledger.value.records else [] }

  function Expected(r: Record): Entry { Entry(r.probe, true, r.labels, r.probe) }

  // ---------------------------------------------------------------- what a reader accepts

  predicate RowOk(r: Record) {
    && !(r.desired.Revoked? && r.verified.VerifiedActive?)
    && (r.verified.Pending? ==> r.epoch.None?)
    && (!r.verified.Pending? ==> r.epoch.Some? && 0 <= r.epoch.value)
  }

  predicate Apart(r: Record, s: Record) {
    r.probe != s.probe && r.enrollment != s.enrollment && r.slot != s.slot
  }

  /** The rows `_load` accepts, however many. */
  predicate RowsOk(records: seq<Record>) {
    && (forall i :: 0 <= i < |records| ==> RowOk(records[i]))
    && (forall i, j :: 0 <= i < j < |records| ==> Apart(records[i], records[j]))
  }

  /** What `_load` accepts. */
  predicate LedgerOk(records: seq<Record>) {
    |records| <= 4096 && RowsOk(records)
  }

  predicate DistinctProbes(entries: seq<Entry>) {
    forall i, j :: 0 <= i < j < |entries| ==> entries[i].probe != entries[j].probe
  }

  /** What `_registry` accepts. */
  predicate RegistryOk(entries: seq<Entry>) {
    |entries| <= 64 && DistinctProbes(entries)
  }

  predicate Owned(records: seq<Record>, probe: nat) {
    exists j :: 0 <= j < |records| && records[j].probe == probe
  }

  predicate Listed(entries: seq<Entry>, probe: nat) {
    exists i :: 0 <= i < |entries| && entries[i].probe == probe
  }

  /** The registry rows no ledger record claims: the operator's own. */
  function ForeignOf(entries: seq<Entry>, records: seq<Record>): (r: seq<Entry>)
    ensures |r| <= |entries|
  {
    if entries == [] then []
    else (if Owned(records, entries[0].probe) then [] else [entries[0]]) + ForeignOf(entries[1..], records)
  }

  /** The registry rows of the records that should be active, in ledger order. */
  function ManagedOf(records: seq<Record>): (r: seq<Entry>)
    ensures |r| <= |records|
  {
    if records == [] then []
    else
      var last := records[|records| - 1];
      ManagedOf(records[..|records| - 1]) + if last.desired.Active? then [Expected(last)] else []
  }

  function PublishedRegistry(d: Disk): seq<Entry> {
    ForeignOf(d.registry, Records(d)) + ManagedOf(Records(d))
  }

  // ---------------------------------------------------------------- the invariant

  predicate KeyFits(keys: map<nat, nat>, r: Record) {
    r.probe in keys ==> keys[r.probe] == r.secret
  }

  /** A registry row that belongs to a record is exactly that record's, and its key file holds its secret. */
  predicate RowBacked(e: Entry, r: Record, keys: map<nat, nat>) {
    e.probe == r.probe ==> e == Expected(r) && r.probe in keys && keys[r.probe] == r.secret
  }

  predicate Backed(entries: seq<Entry>, records: seq<Record>, keys: map<nat, nat>) {
    forall i, j :: 0 <= i < |entries| && 0 <= j < |records| ==> RowBacked(entries[i], records[j], keys)
  }

  predicate KeysFit(records: seq<Record>, keys: map<nat, nat>) {
    forall j :: 0 <= j < |records| ==> KeyFits(keys, records[j])
  }

  predicate VerifiedListed(records: seq<Record>, entries: seq<Entry>) {
    forall j :: 0 <= j < |records| && records[j].desired.Active? && records[j].verified.VerifiedActive? ==>
      Listed(entries, records[j].probe)
  }

  /** What holds of storage after every durable write. */
  predicate Sound(d: Disk) {
    && LedgerOk(Records(d)) && RegistryOk(d.registry)
    && Backed(d.registry, Records(d), d.keys)
    && KeysFit(Records(d), d.keys)
    && VerifiedListed(Records(d), d.registry)
    && |ForeignOf(d.registry, Records(d))| + |ManagedOf(Records(d))| <= 64
  }

  // ---------------------------------------------------------------- what never changes back

  /** The same identity later on: only the state fields differ, and a revoked one stays revoked. */
  predicate Follows(r: Record, s: Record) {
    && s.slot == r.slot && s.labels == r.labels && s.enrollment == r.enrollment
    && s.probe == r.probe && s.secret == r.secret
    && (r.desired.Revoked? ==> s.desired.Revoked?)
  }

  predicate LedgerFollows(a: seq<Record>, b: seq<Record>) {
    |a| <= |b| && forall j :: 0 <= j < |a| ==> Follows(a[j], b[j])
  }

  /** A revoked identity that is not in the registry does not come back to it. */
  predicate StaysOut(records: seq<Record>, a: seq<Entry>, b: seq<Entry>) {
    forall j :: 0 <= j < |records| && records[j].desired.Revoked? && !Listed(a, records[j].probe) ==>
      !Listed(b, records[j].probe)
  }

  /** Key files that are no record's are left alone. */
  ghost predicate OthersKeysKept(records: seq<Record>, a: map<nat, nat>, b: map<nat, nat>) {
    forall p :: !Owned(records, p) ==> (p in a <==> p in b) && (p in a ==> a[p] == b[p])
  }

  /** What every later state of storage keeps of an earlier one. */
  ghost predicate Later(d: Disk, e: Disk) {
    && (d.ledger.Some? ==> e.ledger.Some? && e.ledger.value.binding == d.ledger.value.binding)
    && LedgerFollows(Records(d), Records(e))
    && StaysOut(Records(d), d.registry, e.registry)
    && ForeignOf(e.registry, Records(e)) == ForeignOf(d.registry, Records(d))
    && OthersKeysKept(Records(e), d.keys, e.keys)
  }

  lemma LaterReflexive(d: Disk)
    ensures Later(d, d)
  {
  }

  lemma LaterTransitive(d: Disk, e: Disk, f: Disk)
    requires Later(d, e) && Later(e, f)
    ensures Later(d, f)
  {
    OwnedGrows(Records(e), Records(f));
    forall j | 0 <= j < |Records(d)| && Records(d)[j].desired.Revoked? && !Listed(d.registry, Records(d)[j].probe)
      ensures !Listed(f.registry, Records(d)[j].probe)
    {
      assert Follows(Records(d)[j], Records(e)[j]);
      assert !Listed(e.registry, Records(e)[j].probe);
    }
    forall j | 0 <= j < |Records(d)| ensures Follows(Records(d)[j], Records(f)[j]) {
      assert Follows(Records(d)[j], Records(e)[j]) && Follows(Records(e)[j], Records(f)[j]);
    }
  }

  lemma OwnedGrows(a: seq<Record>, b: seq<Record>)
    requires LedgerFollows(a, b)
    ensures forall p :: Owned(a, p) ==> Owned(b, p)
  {
    forall p | Owned(a, p) ensures Owned(b, p) {
      var j :| 0 <= j < |a| && a[j].probe == p;
      assert Follows(a[j], b[j]);
    }
  }

  /**
    Whatever the worker has put in the registry has a ledger record and a key file
    with that record's secret: every row is one of the rows that no record claimed
    at the start, unchanged, or is backed.
    */
  lemma {:induction false} RegistryIsAccountedFor(d: Disk, e: Disk, i: nat) returns (j: nat)
    requires Sound(e) && Later(d, e) && i < |e.registry|
    ensures e.registry[i] in ForeignOf(d.registry, Records(d)) ||
      (j < |Records(e)| && e.registry[i] == Expected(Records(e)[j]) &&
       Records(e)[j].probe in e.keys && e.keys[Records(e)[j].probe] == Records(e)[j].secret)
  {
    j := 0;
    if Owned(Records(e), e.registry[i].probe) {
      var k :| 0 <= k < |Records(e)| && Records(e)[k].probe == e.registry[i].probe;
      assert RowBacked(e.registry[i], Records(e)[k], e.keys);
      j := k;
    } else {
      ForeignMember(e.registry, Records(e), i);
    }
  }

  // ---------------------------------------------------------------- foreign and managed rows

  lemma {:induction false} ForeignMember(entries: seq<Entry>, records: seq<Record>, i: nat)
    requires i < |entries| && !Owned(records, entries[i].probe)
    ensures entries[i] in ForeignOf(entries, records)
  {
    if i > 0 { ForeignMember(entries[1..], records, i - 1); }
  }

  lemma {:induction false} ForeignOrigin(entries: seq<Entry>, records: seq<Record>, k: nat) returns (i: nat)
    requires k < |ForeignOf(entries, records)|
    ensures i < |entries| && entries[i] == ForeignOf(entries, records)[k] && !Owned(records, entries[i].probe)
  {
    if Owned(records, entries[0].probe) {
      i := ForeignOrigin(entries[1..], records, k);
      i := i + 1;
    } else if k == 0 {
      i := 0;
    } else {
      i := ForeignOrigin(entries[1..], records, k - 1);
      i := i + 1;
    }
  }

  lemma {:induction false} ForeignDistinct(entries: seq<Entry>, records: seq<Record>)
    requires DistinctProbes(entries)
    ensures DistinctProbes(ForeignOf(entries, records))
  {
    if entries != [] {
      DistinctTail(entries);
      ForeignDistinct(entries[1..], records);
      var rest := ForeignOf(entries[1..], records);
      forall k | 0 <= k < |rest| ensures rest[k].probe != entries[0].probe {
        var i := ForeignOrigin(entries[1..], records, k);
        assert entries[i + 1].probe != entries[0].probe;
      }
    }
  }

  lemma DistinctTail(entries: seq<Entry>)
    requires DistinctProbes(entries) && entries != []
    ensures DistinctProbes(entries[1..])
  {
    forall i, j | 0 <= i < j < |entries[1..]| ensures entries[1..][i].probe != entries[1..][j].probe {
      assert entries[i + 1].probe != entries[j + 1].probe;
    }
  }

  /** Which rows are foreign depends on the probe ids in the ledger only. */
  lemma {:induction false} ForeignSame(entries: seq<Entry>, a: seq<Record>, b: seq<Record>)
    requires forall i :: 0 <= i < |entries| ==> (Owned(a, entries[i].probe) <==> Owned(b, entries[i].probe))
    ensures ForeignOf(entries, a) == ForeignOf(entries, b)
  {
    if entries != [] { ForeignSame(entries[1..], a, b); }
  }

  lemma {:induction false} ForeignKeptAlone(entries: seq<Entry>, more: seq<Entry>, records: seq<Record>)
    requires forall i :: 0 <= i < |entries| ==> !Owned(records, entries[i].probe)
    requires forall i :: 0 <= i < |more| ==> Owned(records, more[i].probe)
    ensures ForeignOf(entries + more, records) == entries
  {
    if entries != [] {
      assert (entries + more)[1..] == entries[1..] + more;
      ForeignKeptAlone(entries[1..], more, records);
    } else if more != [] {
      assert entries + more == more;
      ForeignKeptAlone([], more[1..], records);
      assert [] + more[1..] == more[1..];
    }
  }

  lemma {:induction false} ManagedOrigin(records: seq<Record>, k: nat) returns (j: nat)
    requires k < |ManagedOf(records)|
    ensures j < |records| && records[j].desired.Active? && ManagedOf(records)[k] == Expected(records[j])
  {
    var n := |records| - 1;
    if k < |ManagedOf(records[..n])| {
      j := ManagedOrigin(records[..n], k);
    } else {
      j := n;
    }
  }

  lemma {:induction false} ManagedMember(records: seq<Record>, j: nat)
    requires j < |records| && records[j].desired.Active?
    ensures Listed(ManagedOf(records), records[j].probe)
  {
    var n := |records| - 1;
    var before := ManagedOf(records[..n]);
    if j == n {
      assert ManagedOf(records)[|before|].probe == records[j].probe;
    } else {
      ManagedMember(records[..n], j);
      var i :| 0 <= i < |before| && before[i].probe == records[..n][j].probe;
      assert ManagedOf(records)[i] == before[i];
    }
  }

  lemma {:induction false} ManagedDistinct(records: seq<Record>)
    requires forall i, j :: 0 <= i < j < |records| ==> Apart(records[i], records[j])
    ensures DistinctProbes(ManagedOf(records))
  {
    if records != [] {
      var n := |records| - 1;
      ManagedDistinct(records[..n]);
      var before := ManagedOf(records[..n]);
      forall k | 0 <= k < |before| ensures before[k].probe != records[n].probe {
        var j := ManagedOrigin(records[..n], k);
        assert Apart(records[j], records[n]);
      }
    }
  }

  /** The registry about to be written: foreign rows as they were, and one row per active record. */
  lemma PublishedFacts(d: Disk)
    requires LedgerOk(Records(d)) && DistinctProbes(d.registry)
    ensures DistinctProbes(PublishedRegistry(d))
    ensures ForeignOf(PublishedRegistry(d), Records(d)) == ForeignOf(d.registry, Records(d))
    ensures forall i :: 0 <= i < |PublishedRegistry(d)| && Owned(Records(d), PublishedRegistry(d)[i].probe) ==>
      exists j :: 0 <= j < |Records(d)| && Records(d)[j].desired.Active? &&
        PublishedRegistry(d)[i] == Expected(Records(d)[j])
  {
    var rs := Records(d);
    var foreign, managed := ForeignOf(d.registry, rs), ManagedOf(rs);
    ForeignDistinct(d.registry, rs);
    ManagedDistinct(rs);
    forall k | 0 <= k < |foreign| ensures !Owned(rs, foreign[k].probe) {
      var i := ForeignOrigin(d.registry, rs, k);
    }
    forall k | 0 <= k < |managed|
      ensures Owned(rs, managed[k].probe)
      ensures exists j :: 0 <= j < |rs| && rs[j].desired.Active? && managed[k] == Expected(rs[j])
    {
      var j := ManagedOrigin(rs, k);
    }
    ForeignKeptAlone(foreign, managed, rs);
  }

  lemma SameProbe(records: seq<Record>, i: nat, j: nat)
    requires LedgerOk(records) && i < |records| && j < |records| && records[i].probe == records[j].probe
    ensures i == j
  {
    assert i < j ==> Apart(records[i], records[j]);
    assert j < i ==> Apart(records[j], records[i]);
  }

  lemma OtherProbe(records: seq<Record>, i: nat, j: nat)
    requires LedgerOk(records) && i < |records| && j < |records| && i != j
    ensures records[i].probe != records[j].probe
  {
    assert i < j ==> Apart(records[i], records[j]);
    assert j < i ==> Apart(records[j], records[i]);
  }

  /** No revoked identity is in a registry just written. */
  predicate NoneRevokedListed(records: seq<Record>, entries: seq<Entry>) {
    forall j :: 0 <= j < |records| && records[j].desired.Revoked? ==> !Listed(entries, records[j].probe)
  }

  predicate AllActiveListed(records: seq<Record>, entries: seq<Entry>) {
    forall j :: 0 <= j < |records| && records[j].desired.Active? ==> Listed(entries, records[j].probe)
  }

  lemma PublishedListing(d: Disk)
    requires LedgerOk(Records(d)) && DistinctProbes(d.registry)
    ensures NoneRevokedListed(Records(d), PublishedRegistry(d))
    ensures AllActiveListed(Records(d), PublishedRegistry(d))
  {
    var rs, out := Records(d), PublishedRegistry(d);
    PublishedFacts(d);
    forall j, i | 0 <= j < |rs| && rs[j].desired.Revoked? && 0 <= i < |out| ensures out[i].probe != rs[j].probe {
      if Owned(rs, out[i].probe) {
        var k :| 0 <= k < |rs| && rs[k].desired.Active? && out[i] == Expected(rs[k]);
        OtherProbe(rs, k, j);
      } else {
        assert Owned(rs, rs[j].probe);
      }
    }
    forall j | 0 <= j < |rs| && rs[j].desired.Active? ensures Listed(out, rs[j].probe) {
      ManagedMember(rs, j);
      var i :| 0 <= i < |ManagedOf(rs)| && ManagedOf(rs)[i].probe == rs[j].probe;
      assert out[|ForeignOf(d.registry, rs)| + i].probe == rs[j].probe;
    }
  }

  // ---------------------------------------------------------------- each durable write

  predicate ActiveKeysPresent(records: seq<Record>, keys: map<nat, nat>) {
    forall j :: 0 <= j < |records| && records[j].desired.Active? ==> records[j].probe in keys
  }

  /** The registry write, once every active record's key file is there. */
  lemma RegistryWrite(d: Disk)
    requires Sound(d) && ActiveKeysPresent(Records(d), d.keys)
    ensures Sound(d.(registry := PublishedRegistry(d))) && Later(d, d.(registry := PublishedRegistry(d)))
  {
    var rs, out := Records(d), PublishedRegistry(d);
    PublishedFacts(d);
    PublishedListing(d);
    forall i, j | 0 <= i < |out| && 0 <= j < |rs| ensures RowBacked(out[i], rs[j], d.keys) {
      if out[i].probe == rs[j].probe {
        assert Owned(rs, out[i].probe);
        var k :| 0 <= k < |rs| && rs[k].desired.Active? && out[i] == Expected(rs[k]);
        SameProbe(rs, k, j);
      }
    }
  }

  /** A key file written for an active record that has none. */
  lemma KeyWrite(d: Disk, j: nat)
    requires Sound(d) && j < |Records(d)| && Records(d)[j].probe !in d.keys
    ensures var e := d.(keys := d.keys[Records(d)[j].probe := Records(d)[j].secret]); Sound(e) && Later(d, e)
  {
    var rs := Records(d);
    var keys := d.keys[rs[j].probe := rs[j].secret];
    forall i | 0 <= i < |rs| ensures KeyFits(keys, rs[i]) {
      assert i < j ==> Apart(rs[i], rs[j]);
      assert j < i ==> Apart(rs[j], rs[i]);
      assert KeyFits(d.keys, rs[i]);
    }
    forall i, k | 0 <= i < |d.registry| && 0 <= k < |rs| ensures RowBacked(d.registry[i], rs[k], keys) {
      assert RowBacked(d.registry[i], rs[k], d.keys);
    }
    assert Owned(rs, rs[j].probe);
  }

  /** A key file removed once its record is revoked and out of the registry. */
  lemma KeyUnlink(d: Disk, j: nat)
    requires Sound(d) && j < |Records(d)| && !Listed(d.registry, Records(d)[j].probe)
    ensures var e := d.(keys := d.keys - {Records(d)[j].probe}); Sound(e) && Later(d, e)
  {
    var rs := Records(d);
    var keys := d.keys - {rs[j].probe};
    forall i | 0 <= i < |rs| ensures KeyFits(keys, rs[i]) { assert KeyFits(d.keys, rs[i]); }
    forall i, k | 0 <= i < |d.registry| && 0 <= k < |rs| ensures RowBacked(d.registry[i], rs[k], keys) {
      assert RowBacked(d.registry[i], rs[k], d.keys);
      assert d.registry[i].probe != rs[j].probe;
    }
    assert Owned(rs, rs[j].probe);
  }

  /** An identity that neither the ledger, the registry nor the key directory knows, with room for it. */
  predicate Addable(d: Disk, r: Record) {
    && |Records(d)| < 4096
    && (forall i :: 0 <= i < |Records(d)| ==> Apart(Records(d)[i], r))
    && !Listed(d.registry, r.probe) && r.probe !in d.keys
    && |ManagedOf(Records(d))| + |ForeignOf(d.registry, Records(d))| < 64
  }

  lemma LedgerExtends(records: seq<Record>, r: Record)
    requires LedgerOk(records) && |records| < MAX_RECORDS && RowOk(r)
    requires forall i :: 0 <= i < |records| ==> Apart(records[i], r)
    ensures LedgerOk(records + [r])
  {
  }

  lemma OwnedExtends(records: seq<Record>, r: Record)
    ensures forall p :: Owned(records + [r], p) <==> Owned(records, p) || p == r.probe
  {
    var more := records + [r];
    forall p ensures Owned(more, p) <==> Owned(records, p) || p == r.probe {
      if Owned(records, p) {
        var j :| 0 <= j < |records| && records[j].probe == p;
        assert more[j].probe == p;
      }
      assert more[|records|].probe == r.probe;
    }
  }

  lemma BackedExtends(entries: seq<Entry>, records: seq<Record>, r: Record, keys: map<nat, nat>)
    requires Backed(entries, records, keys) && KeysFit(records, keys) && !Listed(entries, r.probe) && r.probe !in keys
    ensures Backed(entries, records + [r], keys) && KeysFit(records + [r], keys)
  {
    var more := records + [r];
    forall j | 0 <= j < |more| ensures KeyFits(keys, more[j]) {
      if j < |records| { assert KeyFits(keys, records[j]); }
    }
    forall i, j | 0 <= i < |entries| && 0 <= j < |more| ensures RowBacked(entries[i], more[j], keys) {
      if j < |records| { assert RowBacked(entries[i], records[j], keys); }
    }
  }

  /** A new active record: nothing that was there is touched. */
  lemma Enrolment(d: Disk, binding: nat, r: Record)
    requires Sound(d) && (d.ledger.Some? ==> d.ledger.value.binding == binding)
    requires RowOk(r) && r.desired.Active? && r.verified.Pending? && Addable(d, r)
    ensures var e := d.(ledger := Some(Ledger(binding, Records(d) + [r]))); Sound(e) && Later(d, e)
  {
    hide RowsOk, RowOk, Apart, DistinctProbes, RowBacked, KeyFits;
    var rs := Records(d);
    LedgerExtends(rs, r);
    OwnedExtends(rs, r);
    BackedExtends(d.registry, rs, r, d.keys);
    ForeignSame(d.registry, rs, rs + [r]);
    assert (rs + [r])[..|rs|] == rs;
  }

  /** Only state fields of records change: revocation, or a confirmation. */
  predicate Restated(a: seq<Record>, b: seq<Record>) {
    && |a| == |b|
    && (forall j :: 0 <= j < |a| ==> Follows(a[j], b[j]) && RowOk(b[j]))
  }

  lemma {:induction false} ManagedShrinks(a: seq<Record>, b: seq<Record>)
    requires |a| == |b| && forall j :: 0 <= j < |a| ==> Follows(a[j], b[j])
    ensures |ManagedOf(b)| <= |ManagedOf(a)|
  {
    if a != [] {
      ManagedShrinks(a[..|a| - 1], b[..|b| - 1]);
      assert Follows(a[|a| - 1], b[|b| - 1]);
    }
  }

  /** A ledger write that only restates records, and calls verified only what is listed. */
  lemma Restatement(d: Disk, records: seq<Record>)
    requires Sound(d) && d.ledger.Some? && Restated(Records(d), records) && VerifiedListed(records, d.registry)
    ensures var e := d.(ledger := Some(d.ledger.value.(records := records))); Sound(e) && Later(d, e)
  {
    var rs := Records(d);
    OwnedGrows(rs, records);
    forall p | Owned(records, p) ensures Owned(rs, p) {
      var j :| 0 <= j < |records| && records[j].probe == p;
      assert Follows(rs[j], records[j]);
    }
    ForeignSame(d.registry, rs, records);
    ManagedShrinks(rs, records);
    RestatedFits(d, records);
  }

  lemma RestatedFits(d: Disk, records: seq<Record>)
    requires Sound(d) && Restated(Records(d), records)
    ensures LedgerOk(records) && Backed(d.registry, records, d.keys) && KeysFit(records, d.keys)
  {
    var rs := Records(d);
    forall i, j | 0 <= i < j < |records| ensures Apart(records[i], records[j]) {
      assert Apart(rs[i], rs[j]) && Follows(rs[i], records[i]) && Follows(rs[j], records[j]);
    }
    forall j | 0 <= j < |records| ensures KeyFits(d.keys, records[j]) {
      assert KeyFits(d.keys, rs[j]) && Follows(rs[j], records[j]);
    }
    forall i, j | 0 <= i < |d.registry| && 0 <= j < |records| ensures RowBacked(d.registry[i], records[j], d.keys) {
      assert RowBacked(d.registry[i], rs[j], d.keys) && Follows(rs[j], records[j]);
    }
  }
}
