/**
  The device lifecycle worker (`Provisioner` in sbox-cm/p6_provision.py). Ledger,
  key files and registry are written in a fixed order; power may go, or a write
  may fail, before or after any of them. The live proof of an identity, and the
  fresh probe id and secret, come from outside.
  */
module Provision {
  import opened Prelude
  import opened ProvisionLedger

  datatype Code =
    | StateBad | BindingChanged | RegistryBad | RegistryChanged | KeyChanged | Capacity | IdempotencyConflict
    | DeviceExists | IdentityCollision | NotEnrolled | AlreadyRevoked | Unconfirmed | ConfirmPending

  datatype Outcome<T> = Done(value: T) | Failed(code: Code)

  /** The codes that say storage is not what the worker itself leaves there. */
  predicate Damage(c: Code) {
    c.StateBad? || c.RegistryBad? || c.RegistryChanged? || c.KeyChanged?
  }

  // ---------------------------------------------------------------- reading

  /** The loop of `_load`, row by row with the ids seen so far. */
  method CheckRows(records: seq<Record>) returns (ok: bool)
    ensures ok <==> RowsOk(records)
  {
    var probes: set<nat>, enrollments: set<nat>, slots: set<Slot> := {}, {}, {};
    for i := 0 to |records|
      invariant RowsOk(records[..i])
      invariant forall p :: p in probes <==> exists k :: 0 <= k < i && records[k].probe == p
      invariant forall e :: e in enrollments <==> exists k :: 0 <= k < i && records[k].enrollment == e
      invariant forall s :: s in slots <==> exists k :: 0 <= k < i && records[k].slot == s
    {
      var row := records[i];
      if row.probe in probes || row.enrollment in enrollments || row.slot in slots || !RowOk(row) {
        NotExtended(records, i);
        return false;
      }
      assert forall k :: 0 <= k < i ==> Apart(records[k], row);
      assert records[..i + 1] == records[..i] + [row];
      probes, enrollments, slots := probes + {row.probe}, enrollments + {row.enrollment}, slots + {row.slot};
    }
    assert records[..|records|] == records;
    return true;
  }

  lemma NotExtended(records: seq<Record>, i: nat)
    requires i < |records|
    requires !RowOk(records[i]) || exists k :: 0 <= k < i && !Apart(records[k], records[i])
    ensures !RowsOk(records)
  {
  }

  /** The checks of `_registry`. */
  method CheckRegistry(entries: seq<Entry>) returns (ok: bool)
    ensures ok <==> RegistryOk(entries)
  {
    if |entries| > MAX_IDENTITIES { return false; }
    var seen: set<nat> := {};
    for i := 0 to |entries|
      invariant forall j, k :: 0 <= j < k < i ==> entries[j].probe != entries[k].probe
      invariant forall p :: p in seen <==> exists k :: 0 <= k < i && entries[k].probe == p
    {
      if entries[i].probe in seen { return false; }
      seen := seen + {entries[i].probe};
    }
    return true;
  }

  /** The registry row of a probe id, as the dictionary by id gives it. */
  function RowOf(entries: seq<Entry>, probe: nat): (e: Option<Entry>)
    ensures e.None? <==> !Listed(entries, probe)
    ensures e.Some? ==> e.value in entries && e.value.probe == probe
  {
    if entries == [] then None
    else if entries[|entries| - 1].probe == probe then Some(entries[|entries| - 1])
    else
      var rest := RowOf(entries[..|entries| - 1], probe);
      assert rest.None? ==> forall i :: 0 <= i < |entries| - 1 ==> entries[..|entries| - 1][i] == entries[i];
      rest
  }

  /** The position of the first record that fits, as `next` finds it, or the number of records. */
  function FirstWhere(records: seq<Record>, fits: Record -> bool, from: nat): (j: nat)
    requires from <= |records|
    ensures from <= j <= |records|
    ensures j < |records| ==> fits(records[j])
    ensures forall i :: from <= i < j ==> !fits(records[i])
    decreases |records| - from
  {
    if from == |records| || fits(records[from]) then from else FirstWhere(records, fits, from + 1)
  }

  // ---------------------------------------------------------------- what publication and confirmation do

  /** The registry row and the key file of a record, where there are any, are the ones the worker writes. */
  predicate Undamaged(r: Record, entries: seq<Entry>, keys: map<nat, nat>) {
    && (RowOf(entries, r.probe) == None || RowOf(entries, r.probe) == Some(Entry(r.probe, true, r.labels, r.probe)))
    && (r.desired.Active? && r.verified.VerifiedActive? ==> Listed(entries, r.probe))
    && (r.desired.Active? && r.probe in keys ==> keys[r.probe] == r.secret)
  }

  predicate AllUndamaged(d: Disk) {
    forall j :: 0 <= j < |Records(d)| ==> Undamaged(Records(d)[j], d.registry, d.keys)
  }

  /** A registry that agrees with the ledger: what a completed publication leaves. */
  predicate InStep(d: Disk) {
    && NoneRevokedListed(Records(d), d.registry)
    && AllActiveListed(Records(d), d.registry)
  }

  /** The first `n` records have their key files, where they should be active. */
  predicate KeysPresentUpTo(records: seq<Record>, n: nat, keys: map<nat, nat>) {
    forall j :: 0 <= j < n && j < |records| && records[j].desired.Active? ==> records[j].probe in keys
  }

  /** The key files of the records from `n` on are as they were. */
  predicate KeysAsBefore(records: seq<Record>, n: nat, a: map<nat, nat>, b: map<nat, nat>) {
    forall j :: n <= j < |records| ==>
      var p := records[j].probe; (p in a <==> p in b) && (p in a ==> a[p] == b[p])
  }

  lemma SameKeyDamage(records: seq<Record>, i: nat, entries: seq<Entry>, a: map<nat, nat>, b: map<nat, nat>)
    requires i < |records| && LedgerOk(records) && KeysAsBefore(records, i, a, b)
    ensures Undamaged(records[i], entries, a) <==> Undamaged(records[i], entries, b)
    ensures forall j :: 0 <= j < |records| && j != i ==> records[j].probe != records[i].probe
  {
    forall j | 0 <= j < |records| && j != i ensures records[j].probe != records[i].probe { OtherProbe(records, j, i); }
  }

  function VerdictOf(desired: Desired): Verified { if desired.Active? then VerifiedActive else VerifiedRevoked }

  /** The verdict the ledger wants. */
  predicate Settled(r: Record) {
    (r.desired.Active? ==> r.verified.VerifiedActive?) && (r.desired.Revoked? ==> r.verified.VerifiedRevoked?)
  }

  /** What the running monitor has vouched for, in order: a probe id, as live or as refused. */
  type Vouched = seq<(nat, Desired)>

  /** The proofs made since are those of these rows, one each. */
  predicate Proved(before: Vouched, after: Vouched, records: seq<Record>, rows: seq<nat>) {
    && before <= after && |after| == |before| + |rows|
    && forall k :: 0 <= k < |rows| && rows[k] < |records| ==>
         after[|before| + k] == (records[rows[k]].probe, records[rows[k]].desired)
  }

  /** A confirmation, and nothing else, has come to a record; the monitor has vouched for it. */
  predicate Stamped(r: Record, s: Record, vouched: Vouched) {
    s.(verified := r.verified, epoch := r.epoch) == r && Settled(s) && (s.probe, s.desired) in vouched
  }

  /** Records outside `rows` are as they were, those in it too or confirmed. */
  predicate Restamped(a: seq<Record>, b: seq<Record>, rows: seq<nat>, vouched: Vouched) {
    && |a| == |b|
    && (forall j :: 0 <= j < |a| && j !in rows ==> b[j] == a[j])
    && (forall j :: 0 <= j < |a| ==> b[j] == a[j] || Stamped(a[j], b[j], vouched))
  }

  /** An identity that is still wanted and was in the registry is in it. */
  predicate StaysListed(d: Disk, e: Disk) {
    && |Records(d)| <= |Records(e)|
    && forall j :: 0 <= j < |Records(d)| && Records(e)[j].desired.Active? && Listed(d.registry, Records(d)[j].probe) ==>
         Listed(e.registry, Records(d)[j].probe)
  }

  /** The registry is as it was, or in step with the ledger. */
  lemma PublicationKeepsListed(d: Disk, e: Disk)
    requires |Records(d)| == |Records(e)|
    requires forall j :: 0 <= j < |Records(d)| ==> Records(d)[j].probe == Records(e)[j].probe
    requires e.registry == d.registry || AllActiveListed(Records(e), e.registry)
    ensures StaysListed(d, e)
  {
  }

  /** The record at `j` is the one of this enrollment. */
  predicate EnrolledAs(records: seq<Record>, j: nat, slot: Slot, labels: Labels, enrollment: nat) {
    j < |records| && records[j].slot == slot && records[j].labels == labels && records[j].enrollment == enrollment
  }

  /** The same, confirmed in the state the ledger wants. */
  predicate SettledAs(records: seq<Record>, j: nat, slot: Slot, labels: Labels, enrollment: nat) {
    EnrolledAs(records, j, slot, labels, enrollment) && Settled(records[j])
  }

  /** Some records are confirmed: nothing else about any of them changes. */
  predicate Confirmed(a: seq<Record>, b: seq<Record>, rows: seq<nat>) {
    && |a| == |b|
    && (forall j :: 0 <= j < |a| ==> b[j].(verified := a[j].verified, epoch := a[j].epoch) == a[j])
    && (forall j :: 0 <= j < |a| && j !in rows ==> b[j] == a[j])
    && (forall j :: 0 <= j < |a| && j in rows ==> Settled(b[j]))
    && (forall j :: 0 <= j < |a| && RowOk(a[j]) ==> RowOk(b[j]))
  }

  predicate RevokedKeysGone(d: Disk, rows: seq<nat>) {
    forall k :: 0 <= k < |rows| && rows[k] < |Records(d)| && Records(d)[rows[k]].desired.Revoked? ==>
      Records(d)[rows[k]].probe !in d.keys
  }

  lemma NothingProved(from: seq<Record>, vouched: Vouched)
    ensures Confirmed(from, from, []) && Restamped(from, from, [], vouched) && Proved(vouched, vouched, from, [])
  {
  }

  lemma OneMoreProved(from: seq<Record>, records: seq<Record>, rows: seq<nat>, j: nat, now: nat,
                      before: Vouched, after: Vouched)
    requires Confirmed(from, records, rows) && j < |from| && after != []
    requires var earlier := after[..|after| - 1];
      Restamped(from, records, rows, earlier) && Proved(before, earlier, from, rows)
    requires after[|after| - 1] == (records[j].probe, records[j].desired)
    ensures var row := records[j].(verified := VerdictOf(records[j].desired), epoch := Some(now));
      && Confirmed(from, records[j := row], rows + [j]) && Restamped(from, records[j := row], rows + [j], after)
      && Proved(before, after, from, rows + [j])
  {
    var earlier := after[..|after| - 1];
    assert after == earlier + [after[|after| - 1]];
    assert forall x :: x in earlier ==> x in after;
    assert records[j].(verified := from[j].verified, epoch := from[j].epoch) == from[j];
  }

  lemma StampsKeepListed(d: Disk, e: Disk, f: Disk, rows: seq<nat>, vouched: Vouched)
    requires StaysListed(d, e) && Restamped(Records(e), Records(f), rows, vouched) && f.registry == e.registry
    ensures StaysListed(d, f)
  {
  }

  lemma ConfirmedKeeps(d: Disk, records: seq<Record>, rows: seq<nat>)
    requires Sound(d) && d.ledger.Some? && InStep(d) && Confirmed(Records(d), records, rows)
    ensures var e := d.(ledger := Some(d.ledger.value.(records := records))); Sound(e) && Later(d, e) && InStep(e)
  {
    Restatement(d, records);
  }

  /** A ledger is stored, and it is bound to another server than the one given. */
  predicate BoundElsewhere(d: Disk, binding: Option<nat>) {
    d.ledger.Some? && binding.Some? && d.ledger.value.binding != binding.value
  }

  class Provisioner {
    var disk: Disk
    /** How many durable writes get through before the power goes or one fails. */
    var power: nat
    /** History: the proofs that have succeeded. */
    ghost var vouched: Vouched

    constructor (disk: Disk, power: nat)
      ensures this.disk == disk && this.power == power && vouched == []
    {
      this.disk, this.power, vouched := disk, power, [];
    }

    /** The running monitor's answer to an authentication challenge. */
    method Proof(r: Record) returns (yes: bool)
      modifies this`vouched
      ensures vouched == if yes then old(vouched) + [(r.probe, r.desired)] else old(vouched)
    {
      yes := *;
      if yes { vouched := vouched + [(r.probe, r.desired)]; }
    }

    method Clock() returns (now: nat) {
      now := *;
    }

    /**
      `_load`: nothing, an empty ledger for the binding given, or the stored one. The
      limit is checked first, then the binding, then the rows, and the code says which
      of the three was the first to fail.
      */
    method Load(binding: Option<nat>) returns (r: Outcome<Option<Ledger>>)
      ensures r.Done? <==> LedgerOk(Records(disk)) && !BoundElsewhere(disk, binding)
      ensures r.Done? ==> r.value == (if disk.ledger.None? && binding.Some? then Some(Ledger(binding.value, []))
                                      else disk.ledger)
      ensures r.Failed? ==> r.code == if |Records(disk)| <= 4096 && BoundElsewhere(disk, binding)
                                      then BindingChanged else StateBad
    {
      if disk.ledger.None? {
        return Done(if binding.Some? then Some(Ledger(binding.value, [])) else None);
      }
      if |disk.ledger.value.records| > MAX_RECORDS { return Failed(StateBad); }
      if binding.Some? && disk.ledger.value.binding != binding.value { return Failed(BindingChanged); }
      var ok := CheckRows(disk.ledger.value.records);
      return if ok then Done(disk.ledger) else Failed(StateBad);
    }

    /** One durable write, which may be the one that does not get through. */
    method Put(d: Disk) returns (alive: bool)
      modifies this`disk, this`power
      ensures alive == (old(power) > 0)
      ensures power == if alive then old(power) - 1 else 0
      ensures disk == if alive then d else old(disk)
    {
      alive := power > 0;
      if alive {
        disk, power := d, power - 1;
      }
    }

    /**
      `_publish`: key files for the active records first, then the registry: foreign
      rows as they were, then the active records. On storage the worker itself left
      it never refuses.
      */
    method Publish() returns (r: Outcome<()>, alive: bool)
      requires LedgerOk(Records(disk))
      modifies this`disk, this`power
      ensures !alive ==> power == 0
      ensures old(Sound(disk)) ==> Sound(disk) && Later(old(disk), disk) && r.Done?
      ensures disk.ledger == old(disk.ledger)
      ensures alive && r.Done? ==> disk.registry == PublishedRegistry(old(disk)) && InStep(disk)
      ensures disk.registry == old(disk.registry) || InStep(disk)
      ensures alive ==> (r.Failed? && Damage(r.code) <==> !(RegistryOk(old(disk.registry)) && AllUndamaged(old(disk))))
      ensures r.Failed? ==> disk.registry == old(disk.registry) && (Damage(r.code) || r.code == Capacity)
    {
      ghost var start := disk;
      LaterReflexive(disk);
      var ok := CheckRegistry(disk.registry);
      if !ok { return Failed(RegistryBad), true; }
      var code;
      code, alive := WriteKeys();
      if code.Some? { return Failed(code.value), true; }
      r := Done(());
      if !alive { return; }
      ghost var keyed := disk;
      var fits;
      fits, alive := WriteRegistry();
      if Sound(start) { LaterTransitive(start, keyed, disk); }
      if !fits { r := Failed(Capacity); }
    }

    /** The loop over the records: their registry rows are checked, missing key files written. */
    method WriteKeys() returns (code: Option<Code>, alive: bool)
      requires LedgerOk(Records(disk))
      modifies this`disk, this`power
      ensures alive ==> (code.None? <==> AllUndamaged(old(disk)))
      ensures !alive ==> power == 0
      ensures disk == old(disk).(keys := disk.keys)
      ensures old(Sound(disk)) ==> code.None? && Sound(disk) && Later(old(disk), disk)
      ensures code.Some? ==> Damage(code.value) && alive
      ensures code.None? && alive ==> ActiveKeysPresent(Records(disk), disk.keys)
    {
      ghost var start := disk;
      ghost var sound := Sound(disk);
      LaterReflexive(disk);
      code, alive := None, true;
      var i := 0;
      while i < |Records(disk)|
        invariant 0 <= i <= |Records(disk)| && code.None? && alive
        invariant disk == start.(keys := disk.keys)
        invariant sound ==> Sound(disk) && Later(start, disk)
        invariant KeysPresentUpTo(Records(disk), i, disk.keys)
        invariant forall j :: 0 <= j < i ==> Undamaged(Records(start)[j], start.registry, start.keys)
        invariant KeysAsBefore(Records(start), i, start.keys, disk.keys)
      {
        ghost var before := disk;
        SameKeyDamage(Records(start), i, start.registry, start.keys, disk.keys);
        code, alive := PublishKey(i);
        if sound { LaterTransitive(start, before, disk); }
        if code.Some? || !alive { return; }
        i := i + 1;
      }
    }

    /** The registry write that ends a publication. */
    method WriteRegistry() returns (fits: bool, alive: bool)
      requires LedgerOk(Records(disk)) && RegistryOk(disk.registry) && ActiveKeysPresent(Records(disk), disk.keys)
      modifies this`disk, this`power
      ensures !alive ==> power == 0
      ensures disk == old(disk).(registry := disk.registry)
      ensures fits <==> |PublishedRegistry(old(disk))| <= 64
      ensures !fits ==> disk == old(disk)
      ensures old(Sound(disk)) ==> fits && Sound(disk) && Later(old(disk), disk)
      ensures fits && alive ==> disk.registry == PublishedRegistry(old(disk)) && InStep(disk)
      ensures disk.registry == old(disk.registry) || InStep(disk)
    {
      LaterReflexive(disk);
      var rows := PublishedRegistry(disk);
      if |rows| > MAX_IDENTITIES { return false, true; }
      PublishedListing(disk);
      if Sound(disk) { RegistryWrite(disk); }
      fits := true;
      alive := Put(disk.(registry := rows));
    }

    /** The checks and the key file of one record. */
    method PublishKey(i: nat) returns (code: Option<Code>, alive: bool)
      requires i < |Records(disk)|
      modifies this`disk, this`power
      ensures !alive ==> power == 0
      ensures disk == old(disk).(keys := disk.keys)
      ensures disk.keys == old(disk.keys) || (Records(disk)[i].desired.Active? &&
        Records(disk)[i].probe !in old(disk.keys) &&
        disk.keys == old(disk.keys)[Records(disk)[i].probe := Records(disk)[i].secret])
      ensures old(Sound(disk)) ==> code.None? && Sound(disk) && Later(old(disk), disk)
      ensures code.Some? ==> Damage(code.value) && alive
      ensures code.None? <==> Undamaged(Records(disk)[i], disk.registry, old(disk.keys))
      ensures code.None? && alive && old(KeysPresentUpTo(Records(disk), i, disk.keys)) ==>
        KeysPresentUpTo(Records(disk), i + 1, disk.keys)
    {
      LaterReflexive(disk);
      ghost var sound := Sound(disk);
      var row := Records(disk)[i];
      var listed := RowOf(disk.registry, row.probe);
      assert sound && listed.Some? ==> RowBacked(listed.value, row, disk.keys);
      if listed.Some? && listed.value != Expected(row) { return Some(RegistryChanged), true; }
      if row.desired.Active? && row.verified.VerifiedActive? && listed.None? { return Some(RegistryChanged), true; }
      if row.desired.Revoked? { return None, true; }
      if row.probe in disk.keys {
        assert sound ==> KeyFits(disk.keys, row);
        return if disk.keys[row.probe] != row.secret then Some(KeyChanged) else None, true;
      }
      if sound { KeyWrite(disk, i); }
      alive := Put(disk.(keys := disk.keys[row.probe := row.secret]));
      code := None;
    }

    /**
      `_confirm`: a live proof of each row, one ledger write, and only then the key
      files of revoked rows go. A failed proof changes nothing.
      */
    method Confirm(rows: seq<nat>) returns (r: Outcome<()>, alive: bool)
      requires disk.ledger.Some? && forall k :: 0 <= k < |rows| ==> rows[k] < |Records(disk)|
      modifies this`disk, this`power, this`vouched
      ensures old(vouched) <= vouched && Restamped(old(Records(disk)), Records(disk), rows, vouched)
      ensures !alive ==> power == 0
      ensures disk.registry == old(disk.registry) && disk.ledger.Some?
      ensures old(Sound(disk) && InStep(disk)) ==> Sound(disk) && InStep(disk) && Later(old(disk), disk)
      ensures r.Failed? ==> r.code == Unconfirmed && disk == old(disk)
      ensures |Records(disk)| == |old(Records(disk))|
      ensures alive && r.Done? ==> Confirmed(old(Records(disk)), Records(disk), rows) && RevokedKeysGone(disk, rows)
      ensures r.Done? ==> Proved(old(vouched), vouched, old(Records(disk)), rows)
    {
      LaterReflexive(disk);
      ghost var start := disk;
      ghost var sound := Sound(disk) && InStep(disk);
      var proven := ProveRows(Records(disk), rows);
      if proven.None? { return Failed(Unconfirmed), true; }
      var records := proven.value;
      if sound { ConfirmedKeeps(disk, records, rows); }
      r := Done(());
      alive := Put(disk.(ledger := Some(disk.ledger.value.(records := records))));
      if !alive { return; }
      ghost var saved := disk;
      alive := UnlinkKeys(rows);
      if sound { LaterTransitive(start, saved, disk); }
    }

    /** The proofs and the in-memory marks of a confirmation. */
    method ProveRows(from: seq<Record>, rows: seq<nat>) returns (to: Option<seq<Record>>)
      requires forall k :: 0 <= k < |rows| ==> rows[k] < |from|
      modifies this`vouched
      ensures old(vouched) <= vouched
      ensures to.Some? ==> Confirmed(from, to.value, rows) && Restamped(from, to.value, rows, vouched)
      ensures to.Some? ==> Proved(old(vouched), vouched, from, rows)
    {
      hide Confirmed, Restamped, Proved;
      var records := from;
      NothingProved(from, vouched);
      assert rows[..0] == [];
      for k := 0 to |rows|
        invariant |records| == |from|
        invariant Confirmed(from, records, rows[..k]) && Restamped(from, records, rows[..k], vouched)
        invariant old(vouched) <= vouched && Proved(old(vouched), vouched, from, rows[..k])
      {
        var row := records[rows[k]];
        var proven := Proof(row);
        if !proven { return None; }
        var now := Clock();
        OneMoreProved(from, records, rows[..k], rows[k], now, old(vouched), vouched);
        assert rows[..k + 1] == rows[..k] + [rows[k]];
        records := records[rows[k] := row.(verified := VerdictOf(row.desired), epoch := Some(now))];
      }
      assert rows[..|rows|] == rows;
      return Some(records);
    }

    /** The key files of the revoked rows, one durable unlink at a time. */
    method UnlinkKeys(rows: seq<nat>) returns (alive: bool)
      requires forall k :: 0 <= k < |rows| ==> rows[k] < |Records(disk)|
      modifies this`disk, this`power
      ensures !alive ==> power == 0
      ensures disk == old(disk).(keys := disk.keys)
      ensures old(Sound(disk) && InStep(disk)) ==> Sound(disk) && Later(old(disk), disk)
      ensures alive ==> RevokedKeysGone(disk, rows)
    {
      ghost var start := disk;
      hide Sound, Later;
      ghost var sound := Sound(disk) && InStep(disk);
      LaterReflexive(disk);
      alive := true;
      for k := 0 to |rows|
        invariant disk == start.(keys := disk.keys)
        invariant sound ==> Sound(disk) && Later(start, disk)
        invariant RevokedKeysGone(disk, rows[..k])
      {
        var row := Records(disk)[rows[k]];
        assert rows[..k + 1] == rows[..k] + [rows[k]];
        if row.desired.Revoked? && row.probe in disk.keys {
          ghost var before := disk;
          LaterReflexive(disk);
          if sound { KeyUnlink(disk, rows[k]); }
          alive := Put(disk.(keys := disk.keys - {row.probe}));
          if sound { LaterTransitive(start, before, disk); }
          if !alive { return; }
        }
      }
      assert rows[..|rows|] == rows;
    }

    /** May this record be added? Its identity must be new to ledger, registry and key directory. */
    method MayAdd(row: Record) returns (code: Option<Code>)
      requires LedgerOk(Records(disk))
      requires forall i :: 0 <= i < |Records(disk)| ==> Records(disk)[i].enrollment != row.enrollment
      ensures code.None? <==> RegistryOk(disk.registry) && Addable(disk, row)
      ensures code == Some(DeviceExists) <==> exists i :: 0 <= i < |Records(disk)| && Records(disk)[i].slot == row.slot
      ensures code.Some? && Damage(code.value) ==> !RegistryOk(disk.registry)
    {
      var records := Records(disk);
      var taken := FirstWhere(records, (r: Record) => r.slot == row.slot, 0);
      if taken < |records| {
        assert !Apart(records[taken], row);
        return Some(DeviceExists);
      }
      if |records| >= MAX_RECORDS { return Some(Capacity); }
      var ok := CheckRegistry(disk.registry);
      if !ok { return Some(RegistryBad); }
      if |ManagedOf(records)| + |ForeignOf(disk.registry, records)| >= MAX_IDENTITIES { return Some(Capacity); }
      if Owned(records, row.probe) || Listed(disk.registry, row.probe) || row.probe in disk.keys {
        return Some(IdentityCollision);
      }
      return None;
    }

    /** The new record of an enrollment, if it may have one: its intent becomes durable before anything else. */
    method AddRecord(binding: nat, row: Record) returns (code: Option<Code>, alive: bool)
      requires disk.ledger.Some? ==> disk.ledger.value.binding == binding
      requires LedgerOk(Records(disk)) && RowOk(row) && row.desired.Active? && row.verified.Pending?
      requires forall i :: 0 <= i < |Records(disk)| ==> Records(disk)[i].enrollment != row.enrollment
      modifies this`disk, this`power
      ensures !alive ==> power == 0
      ensures old(Sound(disk)) ==> Sound(disk) && Later(old(disk), disk) && (code.Some? ==> !Damage(code.value))
      ensures code.Some? || !alive ==> disk == old(disk)
      ensures code.None? <==> RegistryOk(old(disk).registry) && Addable(old(disk), row)
      ensures code.None? && alive ==>
        disk == old(disk).(ledger := Some(Ledger(binding, old(Records(disk)) + [row]))) && LedgerOk(Records(disk))
      ensures code == Some(DeviceExists) <==>
        exists i :: 0 <= i < |old(Records(disk))| && old(Records(disk))[i].slot == row.slot
    {
      LaterReflexive(disk);
      code := MayAdd(row);
      if code.Some? { return code, true; }
      LedgerExtends(Records(disk), row);
      if Sound(disk) { Enrolment(disk, binding, row); }
      alive := Put(disk.(ledger := Some(Ledger(binding, Records(disk) + [row]))));
    }

    /** Publication and confirmation, as every command ends. */
    method Reconcile(rows: seq<nat>) returns (r: Outcome<()>, alive: bool)
      requires disk.ledger.Some? && LedgerOk(Records(disk)) && forall k :: 0 <= k < |rows| ==> rows[k] < |Records(disk)|
      modifies this`disk, this`power, this`vouched
      ensures old(vouched) <= vouched && Restamped(old(Records(disk)), Records(disk), rows, vouched)
      ensures StaysListed(old(disk), disk)
      ensures !alive ==> power == 0
      ensures disk.ledger.Some? && |Records(disk)| == |old(Records(disk))|
      ensures old(Sound(disk)) ==> Sound(disk) && Later(old(disk), disk) && (alive ==> InStep(disk))
      ensures old(Sound(disk)) && r.Failed? ==> r.code == Unconfirmed && disk.ledger == old(disk.ledger)
      ensures r.Failed? ==> Damage(r.code) || r.code == Capacity || r.code == Unconfirmed
      ensures alive && r.Done? ==> Confirmed(old(Records(disk)), Records(disk), rows) && RevokedKeysGone(disk, rows)
      ensures alive && r.Done? ==> Proved(old(vouched), vouched, old(Records(disk)), rows)
    {
      ghost var start := disk;
      r, alive := Publish();
      PublicationKeepsListed(start, disk);
      if r.Failed? || !alive { return; }
      ghost var published := disk;
      r, alive := Confirm(rows);
      StampsKeepListed(start, published, disk, rows, vouched);
      if Sound(start) { LaterTransitive(start, published, disk); }
    }

    /**
      `enroll`. Replaying an enrollment works on the record it made, and never revives
      it; a new one gets a record under a new identity. Success means the record is
      confirmed in the state the ledger wants, and the registry agrees.
      */
    method Enroll(slot: Slot, labels: Labels, enrollment: nat, binding: nat, probe: nat, secret: nat)
      returns (r: Outcome<nat>, alive: bool)
      modifies this`disk, this`power, this`vouched
      ensures !alive ==> power == 0
      ensures old(vouched) <= vouched && StaysListed(old(disk), disk)
      ensures |Records(disk)| <= |old(Records(disk))| + 1
      ensures forall j :: 0 <= j < |old(Records(disk))| ==>
        || Records(disk)[j] == old(Records(disk))[j]
        || (Records(disk)[j].enrollment == enrollment && Stamped(old(Records(disk))[j], Records(disk)[j], vouched))
      ensures |Records(disk)| == |old(Records(disk))| + 1 ==>
        var asked := Record(slot, labels, enrollment, probe, secret, Active, Pending, None);
        var made := Records(disk)[|old(Records(disk))|];
        made == asked || Stamped(asked, made, vouched)
      ensures old(Sound(disk)) ==> Sound(disk) && Later(old(disk), disk) && (r.Failed? ==> !Damage(r.code))
      ensures alive && r.Done? ==>
        SettledAs(Records(disk), r.value, slot, labels, enrollment) && RevokedKeysGone(disk, [r.value])
      ensures alive && r.Done? && old(Sound(disk)) ==> InStep(disk)
      ensures r.Done? && r.value < |old(Records(disk))| ==> |Records(disk)| == |old(Records(disk))|
      ensures r == Failed(IdempotencyConflict) || r == Failed(DeviceExists) ==> disk == old(disk)
    {
      hide Sound, Later, InStep, LedgerOk, RevokedKeysGone, Listed, Settled;
      ghost var start := disk;
      r, alive := Intend(slot, labels, enrollment, binding, probe, secret);
      if r.Failed? || !alive { return; }
      ghost var intent := disk;
      var done;
      done, alive := Reconcile([r.value]);
      if Sound(start) { LaterTransitive(start, intent, disk); }
      if done.Failed? { r := Failed(done.code); }
    }

    /** The first half of an enrollment: its record, found or durably made. */
    method Intend(slot: Slot, labels: Labels, enrollment: nat, binding: nat, probe: nat, secret: nat)
      returns (r: Outcome<nat>, alive: bool)
      modifies this`disk, this`power
      ensures !alive ==> power == 0
      ensures old(Sound(disk)) ==> Sound(disk) && Later(old(disk), disk) && (r.Failed? ==> !Damage(r.code))
      ensures r.Failed? ==> disk == old(disk)
      ensures r.Done? && alive ==>
        disk.ledger.Some? && LedgerOk(Records(disk)) && EnrolledAs(Records(disk), r.value, slot, labels, enrollment)
      ensures r.Done? && r.value < |old(Records(disk))| ==> disk == old(disk)
      ensures disk == old(disk) ||
        (r.Done? && r.value == |old(Records(disk))| && disk == old(disk).(ledger := Some(Ledger(binding,
          old(Records(disk)) + [Record(slot, labels, enrollment, probe, secret, Active, Pending, None)]))))
      ensures r.Done? && alive && r.value >= |old(Records(disk))| ==> |Records(disk)| == |old(Records(disk))| + 1
    {
      LaterReflexive(disk);
      var loaded := Load(Some(binding));
      if loaded.Failed? { return Failed(loaded.code), true; }
      var records := loaded.value.value.records;
      var j := FirstWhere(records, (r: Record) => r.enrollment == enrollment, 0);
      if j < |records| {
        if records[j].slot != slot || records[j].labels != labels { return Failed(IdempotencyConflict), true; }
        return Done(j), true;
      }
      var code;
      code, alive := AddRecord(binding, Record(slot, labels, enrollment, probe, secret, Active, Pending, None));
      return if code.Some? then Failed(code.value) else Done(j), alive;
    }

    /** `resume`: only an existing record that should be active. */
    method Resume(slot: Slot, binding: nat) returns (r: Outcome<nat>, alive: bool)
      modifies this`disk, this`power, this`vouched
      ensures !alive ==> power == 0
      ensures old(vouched) <= vouched && StaysListed(old(disk), disk)
      ensures old(Sound(disk)) ==> Sound(disk) && Later(old(disk), disk) && (r.Failed? ==> !Damage(r.code))
      ensures |Records(disk)| == |old(Records(disk))|
      ensures forall j :: 0 <= j < |old(Records(disk))| ==>
        || Records(disk)[j] == old(Records(disk))[j]
        || (Records(disk)[j].slot == slot && Stamped(old(Records(disk))[j], Records(disk)[j], vouched))
      ensures r.Done? ==>
        && r.value < |old(Records(disk))| && old(Records(disk))[r.value].slot == slot
        && old(Records(disk))[r.value].desired.Active?
      ensures alive && r.Done? && old(Sound(disk)) ==> InStep(disk) && Settled(Records(disk)[r.value])
    {
      LaterReflexive(disk);
      var loaded := Load(Some(binding));
      if loaded.Failed? { return Failed(loaded.code), true; }
      var records := loaded.value.value.records;
      var j := FirstWhere(records, (r: Record) => r.slot == slot, 0);
      if j == |records| { return Failed(NotEnrolled), true; }
      if records[j].desired.Revoked? { return Failed(AlreadyRevoked), true; }
      var done;
      done, alive := Reconcile([j]);
      return if done.Failed? then Failed(done.code) else Done(j), alive;
    }

    /**
      `revoke`. Every selected record is desired revoked in the ledger before anything
      else happens. Unless the selection names an unknown identity, a run that is not
      cut short leaves none of them in the registry; success means all are confirmed
      revoked.
      */
    method Revoke(q: Query) returns (r: Outcome<nat>, alive: bool)
      modifies this`disk, this`power, this`vouched
      ensures !alive ==> power == 0
      ensures old(vouched) <= vouched && StaysListed(old(disk), disk)
      ensures OnlySelected(old(Records(disk)), Records(disk), q, vouched)
      ensures old(Sound(disk)) ==> Sound(disk) && Later(old(disk), disk) && (r.Failed? ==> !Damage(r.code))
      ensures |Records(disk)| == |old(Records(disk))|
      ensures old(Sound(disk)) && alive && r != Failed(NotEnrolled) ==> RevokedAll(Records(disk), q) && InStep(disk)
      ensures old(Sound(disk)) && alive && r.Done? ==>
        ConfirmedAll(Records(disk), q) && r.value == MatchCount(Records(disk), q)
      ensures alive && r == Failed(ConfirmPending) ==> Progress(old(Records(disk)), Records(disk), q)
      ensures r == Failed(NotEnrolled) ==> disk == old(disk)
      ensures old(Sound(disk)) ==> (r == Failed(NotEnrolled) <==> q.probe.Some? && AllSpared(old(Records(disk)), q))
      ensures alive && r.Done? && r.value > 0 ==> FreshlyProved(Records(disk), q, old(vouched), vouched)
    {
      LaterReflexive(disk);
      var loaded := Load(None);
      if loaded.Failed? { return Failed(loaded.code), true; }
      if loaded.value.None? {
        return if q.probe.Some? then Failed(NotEnrolled) else Done(0), true;
      }
      r, alive := RevokeIn(loaded.value.value, q);
    }

    /** Revocation in a ledger that has been loaded: the intent is durable before anything else. */
    method RevokeIn(ledger: Ledger, q: Query) returns (r: Outcome<nat>, alive: bool)
      requires disk.ledger == Some(ledger) && LedgerOk(ledger.records)
      modifies this`disk, this`power, this`vouched
      ensures !alive ==> power == 0
      ensures old(vouched) <= vouched && StaysListed(old(disk), disk)
      ensures OnlySelected(old(Records(disk)), Records(disk), q, vouched)
      ensures |Records(disk)| == |old(Records(disk))|
      ensures old(Sound(disk)) ==> Sound(disk) && Later(old(disk), disk) && (r.Failed? ==> !Damage(r.code))
      ensures old(Sound(disk)) && alive && r != Failed(NotEnrolled) ==> RevokedAll(Records(disk), q) && InStep(disk)
      ensures old(Sound(disk)) && alive && r.Done? ==>
        ConfirmedAll(Records(disk), q) && r.value == MatchCount(Records(disk), q)
      ensures alive && r == Failed(ConfirmPending) ==> Progress(old(Records(disk)), Records(disk), q)
      ensures r == Failed(NotEnrolled) ==> disk == old(disk)
      ensures r == Failed(NotEnrolled) <==> q.probe.Some? && AllSpared(old(Records(disk)), q)
      ensures alive && r.Done? && r.value > 0 ==> FreshlyProved(Records(disk), q, old(vouched), vouched)
    {
      hide Sound, Later, RevokedAll, InStep, ConfirmedAll, LedgerOk, MatchCount, Selection, OnlySelected, RetireRow,
        Listed;
      ghost var start := disk;
      LaterReflexive(disk);
      OnlySelectedReflexive(ledger.records, q, vouched);
      PublicationKeepsListed(disk, disk);
      var records := Retire(ledger.records, q);
      RetiredOk(ledger.records, records, q);
      var rows, pending := Select(records, q);
      NoneSelected(ledger.records, records, q, rows, pending);
      if q.probe.Some? && rows == [] { return Failed(NotEnrolled), true; }
      r := Done(|rows|);
      if Sound(disk) { RetiredKeeps(disk, records, q); }
      alive := Put(disk.(ledger := Some(ledger.(records := records))));
      if !alive { return; }
      ghost var intent := disk;
      RetireKeepsListed(start, intent, q);
      r, alive := ConfirmRevoked(q, rows, pending);
      RetireSelects(Records(start), Records(intent), Records(disk), q, vouched);
      RetireThenListed(start, intent, disk, q);
      if Progress(Records(intent), Records(disk), q) {
        ProgressFromIntent(Records(start), Records(intent), Records(disk), q);
      }
      if Sound(start) { LaterTransitive(start, intent, disk); }
    }

    /** The second half of a revocation: publication, and a bounded batch of confirmations. */
    method ConfirmRevoked(q: Query, rows: seq<nat>, pending: seq<nat>) returns (r: Outcome<nat>, alive: bool)
      requires disk.ledger.Some? && LedgerOk(Records(disk)) && RevokedAll(Records(disk), q)
      requires Selection(Records(disk), q, rows, pending)
      modifies this`disk, this`power, this`vouched
      ensures !alive ==> power == 0
      ensures old(vouched) <= vouched && StaysListed(old(disk), disk)
      ensures OnlySelected(old(Records(disk)), Records(disk), q, vouched)
      ensures |Records(disk)| == |old(Records(disk))|
      ensures old(Sound(disk)) ==>
        Sound(disk) && Later(old(disk), disk) && (r.Failed? ==> !Damage(r.code) && r.code != NotEnrolled)
      ensures old(Sound(disk)) && alive ==> RevokedAll(Records(disk), q) && InStep(disk)
      ensures old(Sound(disk)) && alive && r.Done? ==>
        ConfirmedAll(Records(disk), q) && r.value == MatchCount(Records(disk), q)
      ensures alive && r == Failed(ConfirmPending) ==> Progress(old(Records(disk)), Records(disk), q)
      ensures r != Failed(NotEnrolled)
      ensures alive && r.Done? && r.value > 0 ==> FreshlyProved(Records(disk), q, old(vouched), vouched)
    {
      hide Sound, Later, RevokedAll, InStep, ConfirmedAll, Confirmed, LedgerOk, MatchCount, Matches;
      ghost var before, vouchedBefore := disk, vouched;
      var confirming := pending[..Min(|pending|, MAX_CONFIRMATIONS)];
      if pending == [] && rows != [] { confirming := rows[|rows| - 1..]; }
      var done;
      done, alive := Reconcile(confirming);
      if Sound(before) {
        RevokedStays(before, disk, q);
      }
      ConfirmsSelected(Records(before), Records(disk), q, rows, pending, confirming, vouched);
      if done.Failed? { return Failed(done.code), alive; }
      if |pending| > MAX_CONFIRMATIONS && alive {
        BatchAdvances(Records(before), Records(disk), q, rows, pending, confirming);
      }
      if |pending| > MAX_CONFIRMATIONS { return Failed(ConfirmPending), alive; }
      if Sound(before) && alive { ConfirmedCovers(Records(before), Records(disk), q, rows, pending, confirming); }
      if alive && rows != [] {
        ProofIsFresh(Records(before), Records(disk), q, rows, pending, confirming, vouchedBefore, vouched);
      }
      r := Done(|rows|);
    }
  }

  // ---------------------------------------------------------------- revocation

  datatype Query = Query(name: nat, device: Option<nat>, generation: Option<nat>, probe: Option<nat>)

  predicate Matches(r: Record, q: Query) {
    && r.slot.name == q.name
    && (q.device.Some? ==> r.slot.device == q.device.value)
    && (q.generation.Some? ==> r.slot.generation == q.generation.value)
    && (q.probe.Some? ==> r.probe == q.probe.value)
  }

  /** Sixty-four more of the selected records have been confirmed revoked. */
  ghost predicate Progress(a: seq<Record>, b: seq<Record>, q: Query) {
    exists rows: seq<nat> :: |rows| == 64 && Advanced(a, b, q, rows)
  }

  predicate Advanced(a: seq<Record>, b: seq<Record>, q: Query, rows: seq<nat>) {
    && |a| == |b|
    && (forall k, l :: 0 <= k < l < |rows| ==> rows[k] < rows[l])
    && (forall k :: 0 <= k < |rows| ==>
          && rows[k] < |a| && Matches(a[rows[k]], q)
          && (a[rows[k]].desired.Active? || a[rows[k]].verified.Pending?)
          && b[rows[k]].desired.Revoked? && b[rows[k]].verified.VerifiedRevoked?)
  }

  lemma BatchAdvances(a: seq<Record>, b: seq<Record>, q: Query, rows: seq<nat>, pending: seq<nat>,
                      confirming: seq<nat>)
    requires RevokedAll(a, q) && Selection(a, q, rows, pending) && Confirmed(a, b, confirming)
    requires |pending| > 64 && confirming == pending[..64]
    ensures Progress(a, b, q)
  {
    hide Matches;
    assert Advanced(a, b, q, confirming) by {
      forall k | 0 <= k < |confirming|
        ensures b[confirming[k]].verified.VerifiedRevoked? && b[confirming[k]].desired.Revoked?
      {
        var j := confirming[k];
        assert pending[k] == j && j in confirming;
        assert b[j].(verified := a[j].verified, epoch := a[j].epoch) == a[j];
      }
    }
  }

  lemma ProgressFromIntent(a: seq<Record>, b: seq<Record>, c: seq<Record>, q: Query)
    requires |a| == |b| && forall j :: 0 <= j < |a| ==> b[j] == RetireRow(a[j], q)
    requires Progress(b, c, q)
    ensures Progress(a, c, q)
  {
    hide Matches;
    var rows: seq<nat> :| |rows| == 64 && Advanced(b, c, q, rows);
    assert Advanced(a, c, q, rows) by {
      forall k | 0 <= k < |rows| ensures Matches(a[rows[k]], q) { RetiredMatches(a[rows[k]], q); }
    }
  }

  /** The record differs from the query in something the query names. */
  predicate Spared(r: Record, q: Query) {
    || r.slot.name != q.name
    || (q.device != None && q.device != Some(r.slot.device))
    || (q.generation != None && q.generation != Some(r.slot.generation))
    || (q.probe != None && q.probe != Some(r.probe))
  }

  predicate AllSpared(records: seq<Record>, q: Query) {
    forall j :: 0 <= j < |records| ==> Spared(records[j], q)
  }

  /** One of the selected identities has just been proved refused. */
  ghost predicate FreshlyProved(records: seq<Record>, q: Query, before: Vouched, after: Vouched) {
    exists j, k :: 0 <= j < |records| && |before| <= k < |after| && ProvedRefused(records[j], q, after[k])
  }

  predicate ProvedRefused(r: Record, q: Query, proof: (nat, Desired)) {
    !Spared(r, q) && proof == (r.probe, Revoked)
  }

  /** A revocation touches no record it spares; a selected one is as it was, or retired, and confirmed or not. */
  predicate OnlySelected(a: seq<Record>, b: seq<Record>, q: Query, vouched: Vouched) {
    && |a| == |b|
    && (forall j :: 0 <= j < |a| && Spared(a[j], q) ==> b[j] == a[j])
    && (forall j :: 0 <= j < |a| && a[j].desired.Active? ==>
          var retired := a[j].(desired := Revoked, verified := Pending, epoch := None);
          b[j] == a[j] || b[j] == retired || Stamped(retired, b[j], vouched))
    && (forall j :: 0 <= j < |a| && a[j].desired.Revoked? ==> b[j] == a[j] || Stamped(a[j], b[j], vouched))
  }

  predicate RevokedAll(records: seq<Record>, q: Query) {
    forall j :: 0 <= j < |records| && Matches(records[j], q) ==> records[j].desired.Revoked?
  }

  predicate ConfirmedAll(records: seq<Record>, q: Query) {
    forall j :: 0 <= j < |records| && Matches(records[j], q) ==> records[j].verified.VerifiedRevoked?
  }

  function RetireRow(r: Record, q: Query): Record {
    if Matches(r, q) && r.desired.Active? then r.(desired := Revoked, verified := Pending, epoch := None) else r
  }

  method Retire(records: seq<Record>, q: Query) returns (out: seq<Record>)
    ensures |out| == |records| && forall j :: 0 <= j < |records| ==> out[j] == RetireRow(records[j], q)
  {
    out := [];
    for j := 0 to |records|
      invariant |out| == j && forall k :: 0 <= k < j ==> out[k] == RetireRow(records[k], q)
    {
      out := out + [RetireRow(records[j], q)];
    }
  }

  function MatchCount(records: seq<Record>, q: Query): nat {
    if records == [] then 0
    else MatchCount(records[..|records| - 1], q) + if Matches(records[|records| - 1], q) then 1 else 0
  }

  /** Revoking and confirming do not change what a selection selects. */
  lemma {:induction false} MatchCountStays(a: seq<Record>, b: seq<Record>, q: Query)
    requires |a| == |b| && forall j :: 0 <= j < |a| ==> Follows(a[j], b[j])
    ensures MatchCount(a, q) == MatchCount(b, q)
  {
    if a != [] {
      MatchCountStays(a[..|a| - 1], b[..|b| - 1], q);
      assert Follows(a[|a| - 1], b[|b| - 1]);
    }
  }

  /** The selected rows, and the pending ones among them, by position. */
  predicate Selection(records: seq<Record>, q: Query, rows: seq<nat>, pending: seq<nat>) {
    && |rows| == MatchCount(records, q)
    && (forall k :: 0 <= k < |rows| ==> rows[k] < |records| && Matches(records[rows[k]], q))
    && (forall j :: 0 <= j < |records| && Matches(records[j], q) ==> j in rows)
    && (forall k :: 0 <= k < |pending| ==> pending[k] < |records| && Matches(records[pending[k]], q))
    && (forall j :: 0 <= j < |records| && Matches(records[j], q) && records[j].verified.Pending? ==> j in pending)
    && (forall k :: 0 <= k < |pending| ==> records[pending[k]].verified.Pending?)
    && (forall k, l :: 0 <= k < l < |pending| ==> pending[k] < pending[l])
  }

  lemma SelectsOneMore(records: seq<Record>, j: nat, q: Query, rows: seq<nat>, pending: seq<nat>)
    requires j < |records| && Selection(records[..j], q, rows, pending)
    ensures var r := records[j];
      if !Matches(r, q) then Selection(records[..j + 1], q, rows, pending)
      else Selection(records[..j + 1], q, rows + [j], if r.verified.Pending? then pending + [j] else pending)
  {
    hide Matches;
    var a, b := records[..j], records[..j + 1];
    assert b[..j] == a && b[j] == records[j] && forall k :: 0 <= k < j ==> b[k] == a[k];
    assert forall x :: x in rows + [j] <==> x in rows || x == j;
    assert forall x :: x in pending + [j] <==> x in pending || x == j;
  }

  lemma NothingSelected(q: Query)
    ensures Selection([], q, [], [])
  {
  }

  method Select(records: seq<Record>, q: Query) returns (rows: seq<nat>, pending: seq<nat>)
    ensures Selection(records, q, rows, pending)
  {
    hide *;
    rows, pending := [], [];
    NothingSelected(q);
    assert records[..0] == [];
    for j := 0 to |records|
      invariant Selection(records[..j], q, rows, pending)
    {
      SelectsOneMore(records, j, q, rows, pending);
      if Matches(records[j], q) {
        rows := rows + [j];
        if records[j].verified.Pending? { pending := pending + [j]; }
      }
    }
    assert records[..|records|] == records;
  }

  /** Nothing is selected exactly if everything is spared. */
  lemma NoneSelected(records: seq<Record>, retired: seq<Record>, q: Query, rows: seq<nat>, pending: seq<nat>)
    requires |retired| == |records| && forall j :: 0 <= j < |records| ==> retired[j] == RetireRow(records[j], q)
    requires Selection(retired, q, rows, pending)
    ensures rows == [] <==> AllSpared(records, q)
  {
    hide Matches, RetireRow;
    forall j | 0 <= j < |records| ensures Spared(records[j], q) <==> !Matches(retired[j], q) {
      SparedIsUnselected(records[j], q);
      RetiredMatches(records[j], q);
    }
    if rows != [] { assert Matches(retired[rows[0]], q); }
  }

  /** Success means that one of the selected rows has just been proved. */
  lemma ProofIsFresh(a: seq<Record>, b: seq<Record>, q: Query, rows: seq<nat>, pending: seq<nat>, confirming: seq<nat>,
                     before: Vouched, after: Vouched)
    requires RevokedAll(a, q) && Selection(a, q, rows, pending) && Confirmed(a, b, confirming)
    requires Proved(before, after, a, confirming) && rows != []
    requires confirming == if pending == [] then rows[|rows| - 1..] else pending[..Min(|pending|, 64)]
    ensures FreshlyProved(b, q, before, after)
  {
    hide Matches;
    var j := confirming[0];
    assert Matches(a[j], q) && j in confirming;
    assert b[j].(verified := a[j].verified, epoch := a[j].epoch) == a[j];
    SparedIsUnselected(a[j], q);
    assert ProvedRefused(b[j], q, after[|before|]);
  }

  lemma SparedIsUnselected(r: Record, q: Query)
    ensures Spared(r, q) <==> !Matches(r, q)
  {
  }

  lemma RetiredMatches(r: Record, q: Query)
    ensures Matches(RetireRow(r, q), q) <==> Matches(r, q)
  {
  }

  lemma OnlySelectedReflexive(a: seq<Record>, q: Query, vouched: Vouched)
    ensures OnlySelected(a, a, q, vouched)
  {
  }

  /** Retirement, and what follows it, touch the selection only. */
  lemma RetireSelects(a: seq<Record>, b: seq<Record>, c: seq<Record>, q: Query, vouched: Vouched)
    requires |a| == |b| && forall j :: 0 <= j < |a| ==> b[j] == RetireRow(a[j], q)
    requires OnlySelected(b, c, q, vouched)
    ensures OnlySelected(a, b, q, vouched) && OnlySelected(a, c, q, vouched)
  {
    hide Matches, Stamped, Spared;
    forall j | 0 <= j < |a|
      ensures Spared(a[j], q) <==> !Matches(a[j], q)
      ensures Spared(b[j], q) <==> !Matches(b[j], q)
    {
      SparedIsUnselected(a[j], q);
      SparedIsUnselected(b[j], q);
    }
    forall j | 0 <= j < |a| ensures Matches(a[j], q) <==> Matches(b[j], q) { RetiredMatches(a[j], q); }
  }

  lemma RetireKeepsListed(d: Disk, e: Disk, q: Query)
    requires |Records(d)| == |Records(e)| && e.registry == d.registry
    requires forall j :: 0 <= j < |Records(d)| ==> Records(e)[j] == RetireRow(Records(d)[j], q)
    ensures StaysListed(d, e)
  {
    PublicationKeepsListed(d, e);
  }

  lemma RetireThenListed(d: Disk, e: Disk, f: Disk, q: Query)
    requires |Records(d)| == |Records(e)| && e.registry == d.registry
    requires forall j :: 0 <= j < |Records(d)| ==> Records(e)[j] == RetireRow(Records(d)[j], q)
    requires StaysListed(e, f)
    ensures StaysListed(d, f)
  {
  }

  /** Confirmations of selected records touch the selection only. */
  lemma ConfirmsSelected(a: seq<Record>, b: seq<Record>, q: Query, rows: seq<nat>, pending: seq<nat>,
                         confirming: seq<nat>, vouched: Vouched)
    requires RevokedAll(a, q) && Selection(a, q, rows, pending) && Restamped(a, b, confirming, vouched)
    requires forall k :: 0 <= k < |confirming| ==> confirming[k] in rows || confirming[k] in pending
    ensures OnlySelected(a, b, q, vouched)
  {
    hide Matches, Stamped, Spared;
    forall j | 0 <= j < |a| && (Spared(a[j], q) || a[j].desired.Active?) ensures b[j] == a[j] {
      SparedIsUnselected(a[j], q);
      assert j !in confirming;
    }
  }

  lemma RetiredOk(a: seq<Record>, b: seq<Record>, q: Query)
    requires LedgerOk(a) && |b| == |a| && forall j :: 0 <= j < |a| ==> b[j] == RetireRow(a[j], q)
    ensures LedgerOk(b) && RevokedAll(b, q)
  {
    forall i, j | 0 <= i < j < |b| ensures Apart(b[i], b[j]) { assert Apart(a[i], a[j]); }
    forall j | 0 <= j < |b| ensures RowOk(b[j]) { assert RowOk(a[j]); }
  }

  lemma RetiredKeeps(d: Disk, records: seq<Record>, q: Query)
    requires Sound(d) && d.ledger.Some? && |records| == |Records(d)|
    requires forall j :: 0 <= j < |records| ==> records[j] == RetireRow(Records(d)[j], q)
    ensures var e := d.(ledger := Some(d.ledger.value.(records := records))); Sound(e) && Later(d, e)
  {
    Restatement(d, records);
  }

  lemma RevokedStays(d: Disk, e: Disk, q: Query)
    requires Later(d, e) && RevokedAll(Records(d), q) && |Records(d)| == |Records(e)|
    ensures RevokedAll(Records(e), q) && MatchCount(Records(e), q) == MatchCount(Records(d), q)
  {
    MatchCountStays(Records(d), Records(e), q);
    forall j | 0 <= j < |Records(e)| && Matches(Records(e)[j], q) ensures Records(e)[j].desired.Revoked? {
      assert Follows(Records(d)[j], Records(e)[j]);
    }
  }

  lemma ConfirmedCovers(a: seq<Record>, b: seq<Record>, q: Query, rows: seq<nat>, pending: seq<nat>,
                        confirming: seq<nat>)
    requires LedgerOk(a) && RevokedAll(a, q) && Selection(a, q, rows, pending) && Confirmed(a, b, confirming)
    requires confirming == pending || pending == []
    ensures ConfirmedAll(b, q)
  {
    forall j | 0 <= j < |b| && Matches(b[j], q) ensures b[j].verified.VerifiedRevoked? {
      assert b[j].(verified := a[j].verified, epoch := a[j].epoch) == a[j];
      assert Matches(a[j], q) && RowOk(a[j]);
    }
  }

  // ---------------------------------------------------------------- whole histories

  datatype Command =
    | DoEnroll(slot: Slot, labels: Labels, enrollment: nat, binding: nat, probe: nat, secret: nat)
    | DoResume(slot: Slot, binding: nat)
    | DoRevoke(q: Query)

  /** The identity of this record is revoked in the ledger and out of the registry. */
  predicate RetiredAt(d: Disk, j: nat) {
    j < |Records(d)| && Records(d)[j].desired.Revoked? && !Listed(d.registry, Records(d)[j].probe)
  }

  lemma RetiredStays(d: Disk, e: Disk)
    requires Later(d, e)
    ensures forall j: nat :: RetiredAt(d, j) ==> RetiredAt(e, j) && Records(e)[j].probe == Records(d)[j].probe
  {
    forall j: nat | RetiredAt(d, j) ensures RetiredAt(e, j) && Records(e)[j].probe == Records(d)[j].probe {
      assert Follows(Records(d)[j], Records(e)[j]);
    }
  }

  /** Some revocation among the commands selected this record. */
  predicate SelectedBy(commands: seq<Command>, r: Record) {
    exists i :: 0 <= i < |commands| && commands[i].DoRevoke? && !Spared(r, commands[i].q)
  }

  predicate RevocationsSelected(a: seq<Record>, b: seq<Record>, commands: seq<Command>) {
    |a| <= |b| && forall j :: 0 <= j < |a| && a[j].desired.Active? && b[j].desired.Revoked? ==>
      SelectedBy(commands, a[j])
  }

  /** A record that counts as verified did so before, or the monitor has vouched for it as the ledger wants it. */
  predicate Earned(a: seq<Record>, b: seq<Record>, vouched: Vouched) {
    forall j :: 0 <= j < |b| && !b[j].verified.Pending? ==>
      (j < |a| && b[j] == a[j]) || (Settled(b[j]) && (b[j].probe, b[j].desired) in vouched)
  }

  /** What one command, cut anywhere, may do to the records. */
  predicate Commanded(a: seq<Record>, b: seq<Record>, c: Command, vouched: Vouched) {
    && |a| <= |b|
    && Earned(a, b, vouched)
    && (forall j :: 0 <= j < |a| ==>
          b[j].desired == a[j].desired || (b[j].desired.Revoked? && c.DoRevoke? && !Spared(a[j], c.q)))
  }

  /** One command, with whatever power there is. */
  method Obey(worker: Provisioner, c: Command) returns (code: Option<Code>)
    requires Sound(worker.disk)
    modifies worker`disk, worker`power, worker`vouched
    ensures Sound(worker.disk) && Later(old(worker.disk), worker.disk) && (code.Some? ==> !Damage(code.value))
    ensures old(worker.vouched) <= worker.vouched && StaysListed(old(worker.disk), worker.disk)
    ensures Commanded(old(Records(worker.disk)), Records(worker.disk), c, worker.vouched)
  {
    hide Sound, InStep, StaysListed, OthersKeysKept, StaysOut;
    worker.power := *;
    var r, alive;
    match c {
      case DoEnroll(slot, labels, enrollment, binding, probe, secret) =>
        r, alive := worker.Enroll(slot, labels, enrollment, binding, probe, secret);
      case DoResume(slot, binding) => r, alive := worker.Resume(slot, binding);
      case DoRevoke(q) => r, alive := worker.Revoke(q);
    }
    code := if r.Failed? then Some(r.code) else None;
  }

  lemma HistoryStarts(d: Disk, vouched: Vouched)
    ensures StaysListed(d, d)
    ensures RevocationsSelected(Records(d), Records(d), []) && Earned(Records(d), Records(d), vouched)
  {
  }

  lemma HistoryGrows(d: Disk, e: Disk, f: Disk, before: seq<Command>, c: Command, earlier: Vouched, vouched: Vouched)
    requires Later(d, e) && Later(e, f) && Commanded(Records(e), Records(f), c, vouched) && earlier <= vouched
    requires StaysListed(d, e) && StaysListed(e, f)
    requires RevocationsSelected(Records(d), Records(e), before) && Earned(Records(d), Records(e), earlier)
    ensures StaysListed(d, f) && RevocationsSelected(Records(d), Records(f), before + [c])
    ensures Earned(Records(d), Records(f), vouched)
  {
    forall j | 0 <= j < |Records(d)|
      ensures Follows(Records(d)[j], Records(e)[j]) && Follows(Records(e)[j], Records(f)[j])
    {
    }
    forall j | 0 <= j < |Records(d)| && Records(d)[j].desired.Active? && Records(f)[j].desired.Revoked?
      ensures SelectedBy(before + [c], Records(d)[j])
    {
      if Records(e)[j].desired.Revoked? {
        var i :| 0 <= i < |before| && before[i].DoRevoke? && !Spared(Records(d)[j], before[i].q);
        assert (before + [c])[i] == before[i];
      } else {
        assert (before + [c])[|before|] == c;
      }
    }
  }

  /**
    Every sequence of commands, each cut short anywhere: storage stays sound, no
    command ever finds it damaged, and the last state is a later one than the first.
    An identity found revoked and out of the registry stays revoked and out.
    */
  method AnyHistory(worker: Provisioner, commands: seq<Command>) returns (codes: seq<Option<Code>>)
    requires Sound(worker.disk)
    modifies worker`disk, worker`power, worker`vouched
    ensures Sound(worker.disk) && Later(old(worker.disk), worker.disk)
    ensures |codes| == |commands| && forall i :: 0 <= i < |codes| && codes[i].Some? ==> !Damage(codes[i].value)
    ensures StaysListed(old(worker.disk), worker.disk)
    ensures RevocationsSelected(old(Records(worker.disk)), Records(worker.disk), commands)
    ensures Earned(old(Records(worker.disk)), Records(worker.disk), worker.vouched)
    ensures forall j: nat :: RetiredAt(old(worker.disk), j) ==>
      RetiredAt(worker.disk, j) && Records(worker.disk)[j].probe == old(Records(worker.disk)[j].probe)
  {
    hide Sound, StaysListed, OthersKeysKept, StaysOut, RevocationsSelected, Earned, Commanded, RetiredAt;
    ghost var start := worker.disk;
    LaterReflexive(start);
    HistoryStarts(start, worker.vouched);
    codes := [];
    for i := 0 to |commands|
      invariant Sound(worker.disk) && Later(start, worker.disk)
      invariant |codes| == i && forall k :: 0 <= k < i && codes[k].Some? ==> !Damage(codes[k].value)
      invariant StaysListed(start, worker.disk)
      invariant RevocationsSelected(Records(start), Records(worker.disk), commands[..i])
      invariant Earned(Records(start), Records(worker.disk), worker.vouched)
    {
      ghost var before, vouchedBefore := worker.disk, worker.vouched;
      var code := Obey(worker, commands[i]);
      HistoryGrows(start, before, worker.disk, commands[..i], commands[i], vouchedBefore, worker.vouched);
      assert commands[..i + 1] == commands[..i] + [commands[i]];
      LaterTransitive(start, before, worker.disk);
      codes := codes + [code];
    }
    RetiredStays(start, worker.disk);
    assert commands[..|commands|] == commands;
  }
}
