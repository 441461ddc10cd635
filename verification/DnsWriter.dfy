/** The zone writer: a batch is grouped per zone and each zone object is read, modified and written once. */
module DnsWriter {
  import opened Wrappers
  import opened Filtering
  import opened DnsNaming
  import opened DnsZone

  datatype ChangeResult = ChangeResult(applied: nat, zones: seq<string>)

  function OfZone(zone: string): Change -> bool { (c: Change) => c.zone == zone }

  /** The zones of a batch in order of first appearance. */
  function ZoneOrder(changes: seq<Change>): (zones: seq<string>)
    ensures forall z :: z in zones <==> exists i :: 0 <= i < |changes| && changes[i].zone == z
    ensures forall i, j :: 0 <= i < j < |zones| ==> zones[i] != zones[j]
  {
    if changes == [] then []
    else
      var last := changes[|changes| - 1];
      var earlier := ZoneOrder(changes[..|changes| - 1]);
      if last.zone in earlier then earlier else earlier + [last.zone]
  }

  function FirstUnsupported(changes: seq<Change>): Option<Error> {
    if changes == [] then None
    else
      match FirstUnsupported(changes[..|changes| - 1])
      case Some(e) => Some(e)
      case None =>
        match RecordType(changes[|changes| - 1].rtype)
        case Err(e) => Some(e)
        case Ok(_) => None
  }

  datatype Progress = Progress(store: Store, outcome: Result<ChangeResult>)

  /** Writes one more zone, unless an earlier one failed. */
  function WriteNext(cfg: WriterConfig, seed: string -> seq<Rec>, faults: Faults, earlier: Progress, zone: string, changes: seq<Change>): Progress {
    match earlier.outcome
    case Err(_) => earlier
    case Ok(res) =>
      match Rewrite(cfg, seed, faults, earlier.store, zone, changes)
      case Err(e) => Progress(earlier.store, Err(e))
      case Ok(written) =>
        Progress(StoreAfter(earlier.store, zone, written),
                 Ok(ChangeResult(res.applied + |changes|, if written.Some? then res.zones + [zone] else res.zones)))
  }

  /** The store after the zones of `order` have been written one by one, up to the first failure. */
  function WriteZones(cfg: WriterConfig, seed: string -> seq<Rec>, faults: Faults, store: Store, order: seq<string>, changes: seq<Change>): Progress {
    if order == [] then Progress(store, Ok(ChangeResult(0, [])))
    else
      var zone := order[|order| - 1];
      WriteNext(cfg, seed, faults, WriteZones(cfg, seed, faults, store, order[..|order| - 1], changes), zone, Filter(OfZone(zone), changes))
  }

  lemma WriteZonesStep(cfg: WriterConfig, seed: string -> seq<Rec>, faults: Faults, store: Store, order: seq<string>, changes: seq<Change>, i: nat)
    requires i < |order|
    ensures WriteZones(cfg, seed, faults, store, order[..i + 1], changes)
         == WriteNext(cfg, seed, faults, WriteZones(cfg, seed, faults, store, order[..i], changes), order[i], Filter(OfZone(order[i]), changes))
  {
    hide WriteNext, Filter;
    assert order[..i + 1][..i] == order[..i];
  }

  function Batch(cfg: WriterConfig, seed: string -> seq<Rec>, faults: Faults, store: Store, changes: seq<Change>): Progress {
    match FirstUnsupported(changes)
    case Some(e) => Progress(store, Err(e))
    case None => WriteZones(cfg, seed, faults, store, ZoneOrder(changes), changes)
  }

  /** Zones come in the order in which the batch first names them. */
  lemma {:induction false} ZoneOrderMeaning(changes: seq<Change>, i: nat, j: nat)
    requires i < j < |ZoneOrder(changes)|
    ensures exists a :: 0 <= a < |changes| && changes[a].zone == ZoneOrder(changes)[i] && forall b :: 0 <= b <= a ==> changes[b].zone != ZoneOrder(changes)[j]
  {
    var front := changes[..|changes| - 1];
    if j < |ZoneOrder(front)| {
      ZoneOrderMeaning(front, i, j);
      var a :| 0 <= a < |front| && front[a].zone == ZoneOrder(front)[i] && forall b :: 0 <= b <= a ==> front[b].zone != ZoneOrder(front)[j];
      assert changes[a].zone == ZoneOrder(changes)[i];
    } else {
      assert ZoneOrder(front)[i] in ZoneOrder(front);
      var a :| 0 <= a < |front| && front[a].zone == ZoneOrder(front)[i];
      assert changes[a].zone == ZoneOrder(changes)[i];
      forall b | 0 <= b <= a ensures changes[b].zone != ZoneOrder(changes)[j] { assert front[b].zone in ZoneOrder(front); }
    }
  }

  /** The changes of the first `n` zones of the order. */
  function Share(order: seq<string>, changes: seq<Change>): nat {
    if order == [] then 0 else Share(order[..|order| - 1], changes) + |Filter(OfZone(order[|order| - 1]), changes)|
  }

  lemma {:induction false} AppliedShare(cfg: WriterConfig, seed: string -> seq<Rec>, faults: Faults, store: Store, order: seq<string>, changes: seq<Change>)
    requires WriteZones(cfg, seed, faults, store, order, changes).outcome.Ok?
    ensures WriteZones(cfg, seed, faults, store, order, changes).outcome.value.applied == Share(order, changes)
  {
    hide Rewrite, Filter;
    if order != [] { AppliedShare(cfg, seed, faults, store, order[..|order| - 1], changes); }
  }

  lemma {:induction false} ShareStep(order: seq<string>, front: seq<Change>, c: Change)
    requires forall i, j :: 0 <= i < j < |order| ==> order[i] != order[j]
    ensures Share(order, front + [c]) == Share(order, front) + if c.zone in order then 1 else 0
  {
    if order != [] {
      var some, z := order[..|order| - 1], order[|order| - 1];
      ShareStep(some, front, c);
      assert (front + [c])[..|front|] == front;
      assert c.zone in order <==> c.zone in some || c.zone == z by { assert order == some + [z]; }
    }
  }

  lemma {:induction false} ShareIsAll(order: seq<string>, changes: seq<Change>)
    requires forall i, j :: 0 <= i < j < |order| ==> order[i] != order[j]
    requires forall i :: 0 <= i < |changes| ==> changes[i].zone in order
    ensures Share(order, changes) == |changes|
  {
    if changes == [] {
      NoShare(order);
    } else {
      var front, c := changes[..|changes| - 1], changes[|changes| - 1];
      ShareIsAll(order, front);
      ShareStep(order, front, c);
      assert changes == front + [c];
    }
  }

  lemma {:induction false} NoShare(order: seq<string>)
    ensures Share(order, []) == 0
  {
    if order != [] { NoShare(order[..|order| - 1]); }
  }

  /** A batch that succeeds counts every change as applied; one that fails leaves the zones before the failing one written and the rest as they were. */
  lemma BatchCounts(cfg: WriterConfig, seed: string -> seq<Rec>, faults: Faults, store: Store, changes: seq<Change>)
    ensures Batch(cfg, seed, faults, store, changes).outcome.Ok? ==> Batch(cfg, seed, faults, store, changes).outcome.value.applied == |changes|
    ensures Batch(cfg, seed, faults, store, changes).outcome.Err? && FirstUnsupported(changes).None? ==>
      exists k: nat :: FailsAt(cfg, seed, faults, store, ZoneOrder(changes), changes, k) && Batch(cfg, seed, faults, store, changes).store == WriteZones(cfg, seed, faults, store, ZoneOrder(changes)[..k], changes).store
  {
    var order := ZoneOrder(changes);
    if Batch(cfg, seed, faults, store, changes).outcome.Ok? {
      AppliedShare(cfg, seed, faults, store, order, changes);
      ShareIsAll(order, changes);
    } else if FirstUnsupported(changes).None? {
      var k := FailingZone(cfg, seed, faults, store, order, changes);
    }
  }

  /** Zone `k` is the first that cannot be rewritten, those before it having been. */
  ghost predicate FailsAt(cfg: WriterConfig, seed: string -> seq<Rec>, faults: Faults, store: Store, order: seq<string>, changes: seq<Change>, k: nat) {
    && k < |order| && WriteZones(cfg, seed, faults, store, order[..k], changes).outcome.Ok?
    && Rewrite(cfg, seed, faults, WriteZones(cfg, seed, faults, store, order[..k], changes).store, order[k], Filter(OfZone(order[k]), changes)).Err?
  }

  lemma {:induction false} FailingZone(cfg: WriterConfig, seed: string -> seq<Rec>, faults: Faults, store: Store, order: seq<string>, changes: seq<Change>) returns (k: nat)
    requires WriteZones(cfg, seed, faults, store, order, changes).outcome.Err?
    ensures FailsAt(cfg, seed, faults, store, order, changes, k)
    ensures WriteZones(cfg, seed, faults, store, order, changes).store == WriteZones(cfg, seed, faults, store, order[..k], changes).store
  {
    hide Rewrite, Filter;
    var front := order[..|order| - 1];
    if WriteZones(cfg, seed, faults, store, front, changes).outcome.Err? {
      k := FailingZone(cfg, seed, faults, store, front, changes);
      assert front[..k] == order[..k];
    } else {
      k := |order| - 1;
    }
  }

  class Writer {
    const cfg: WriterConfig
    const seed: string -> seq<Rec>
    var store: Store
    var faults: Faults

    constructor (cfg: WriterConfig, seed: string -> seq<Rec>, store: Store, faults: Faults)
      ensures this.cfg == cfg && this.seed == seed && this.store == store && this.faults == faults
    {
      this.cfg, this.seed, this.store, this.faults := cfg, seed, store, faults;
    }

    method Edited(zone: string, base: seq<Rec>, changes: seq<Change>) returns (r: Result<Edit>)
      ensures r == ApplyAll(cfg, zone, base, changes)
    {
      var records, changed := base, false;
      for i := 0 to |changes|
        invariant ApplyAll(cfg, zone, base, changes[..i]) == Ok(Edit(records, changed))
      {
        assert changes[..i + 1][..i] == changes[..i];
        var lab := RelativeLabel(changes[i].name, zone);
        var rtype := RecordType(changes[i].rtype);
        if rtype.Err? { ApplyAllFails(cfg, zone, base, changes, i + 1); return Err(rtype.error); }
        var edit := Edit(records, false);
        match changes[i].action {
          case Upsert =>
            if OverQuota(cfg, records, lab, rtype.value) { ApplyAllFails(cfg, zone, base, changes, i + 1); return Err(QuotaExceeded(zone)); }
            edit := SetRecordSet(records, lab, rtype.value, [changes[i].value], TTLOf(cfg, changes[i]));
          case UpsertSet =>
            if OverQuota(cfg, records, lab, rtype.value) { ApplyAllFails(cfg, zone, base, changes, i + 1); return Err(QuotaExceeded(zone)); }
            edit := SetRecordSet(records, lab, rtype.value, changes[i].values, TTLOf(cfg, changes[i]));
          case Delete =>
            edit := RemoveRecord(records, lab, rtype.value, changes[i].value);
          case Other(a) =>
            ApplyAllFails(cfg, zone, base, changes, i + 1);
            return Err(UnknownAction(a));
        }
        records := edit.records;
        if edit.changed { changed := true; }
      }
      assert changes[..|changes|] == changes;
      return Ok(Edit(records, changed));
    }

    method ApplyZone(zone: string, changes: seq<Change>) returns (r: Result<bool>)
      modifies this`store
      ensures match Rewrite(cfg, seed, faults, old(store), zone, changes)
              case Err(e) => r == Err(e) && store == old(store)
              case Ok(written) => r == Ok(written.Some?) && store == StoreAfter(old(store), zone, written)
    {
      if zone in faults.unreachable { return Err(Unreachable(zone)); }
      var exists_ := zone in store && !store[zone].Corrupt?;
      var base;
      if exists_ {
        base := store[zone].records;
      } else {
        if !HasUpsert(changes) { return Ok(false); }
        base := seed(zone);
      }
      var edited := Edited(zone, base, changes);
      if edited.Err? { return Err(edited.error); }
      if !edited.value.changed { return Ok(false); }
      if zone in faults.unwritable { return Err(WriteFailed(zone)); }
      store := store[zone := Zone(edited.value.records)];
      return Ok(true);
    }

    method GroupByZone(changes: seq<Change>) returns (bad: Option<Error>, byZone: map<string, seq<Change>>, order: seq<string>)
      ensures bad == FirstUnsupported(changes)
      ensures bad.None? ==> order == ZoneOrder(changes) && Grouped(byZone, changes)
    {
      hide ZoneOrder, Grouped, RecordType;
      byZone, order := map[], [];
      NothingGrouped();
      assert changes[..0] == [];
      for i := 0 to |changes|
        invariant FirstUnsupported(changes[..i]) == None
        invariant order == ZoneOrder(changes[..i]) && Grouped(byZone, changes[..i])
      {
        var c := changes[i];
        assert changes[..i + 1][..i] == changes[..i];
        var rtype := RecordType(c.rtype);
        if rtype.Err? { UnsupportedFails(changes, i + 1); return Some(rtype.error), byZone, order; }
        GroupedStep(byZone, changes[..i], c);
        assert changes[..i + 1] == changes[..i] + [c];
        if c.zone !in byZone {
          order := order + [c.zone];
          byZone := byZone[c.zone := [c]];
        } else {
          byZone := byZone[c.zone := byZone[c.zone] + [c]];
        }
      }
      assert changes[..|changes|] == changes;
      bad := None;
    }

    method ApplyBatch(changes: seq<Change>) returns (r: Result<ChangeResult>)
      modifies this`store
      ensures Progress(store, r) == Batch(cfg, seed, faults, old(store), changes)
    {
      hide Rewrite, Filter, FirstUnsupported, ZoneOrder, WriteZones, StoreAfter;
      var bad, byZone, order := GroupByZone(changes);
      if bad.Some? { return Err(bad.value); }
      var res := ChangeResult(0, []);
      NoZones(cfg, seed, faults, store, changes);
      assert order[..0] == [];
      for i := 0 to |order|
        invariant Progress(store, Ok(res)) == WriteZones(cfg, seed, faults, old(store), order[..i], changes)
      {
        var zone := order[i];
        WriteZonesStep(cfg, seed, faults, old(store), order, changes, i);
        GroupOf(byZone, changes, zone);
        var applied := ApplyZone(zone, byZone[zone]);
        if applied.Err? {
          WriteZonesFails(cfg, seed, faults, old(store), order, changes, i + 1);
          return Err(applied.error);
        }
        res := ChangeResult(res.applied + |byZone[zone]|, if applied.value then res.zones + [zone] else res.zones);
      }
      assert order[..|order|] == order;
      return Ok(res);
    }
  }

  /** Each zone of the batch has its own changes, in order. */
  ghost predicate Grouped(byZone: map<string, seq<Change>>, changes: seq<Change>) {
    forall z :: (z in byZone <==> z in ZoneOrder(changes)) && (z in byZone ==> byZone[z] == Filter(OfZone(z), changes))
  }

  lemma NothingGrouped()
    ensures Grouped(map[], []) && ZoneOrder([]) == []
  {
  }

  lemma GroupedStep(byZone: map<string, seq<Change>>, front: seq<Change>, c: Change)
    requires Grouped(byZone, front)
    ensures ZoneOrder(front + [c]) == if c.zone in byZone then ZoneOrder(front) else ZoneOrder(front) + [c.zone]
    ensures Grouped(byZone[c.zone := (if c.zone in byZone then byZone[c.zone] else []) + [c]], front + [c])
    ensures c.zone !in byZone ==> [] + [c] == [c]
  {
    OrderStep(front, c);
    hide ZoneOrder, Filter;
    var more := byZone[c.zone := (if c.zone in byZone then byZone[c.zone] else []) + [c]];
    forall z ensures (z in more <==> z in ZoneOrder(front + [c])) && (z in more ==> more[z] == Filter(OfZone(z), front + [c])) {
      assert (z in byZone <==> z in ZoneOrder(front)) && (c.zone in byZone <==> c.zone in ZoneOrder(front));
      FilterStep(front, c, z);
      if z == c.zone && z !in byZone { NoneOfZone(z, front); }
    }
  }

  lemma OrderStep(front: seq<Change>, c: Change)
    ensures ZoneOrder(front + [c]) == if c.zone in ZoneOrder(front) then ZoneOrder(front) else ZoneOrder(front) + [c.zone]
  {
    assert (front + [c])[..|front|] == front;
  }

  lemma FilterStep(front: seq<Change>, c: Change, z: string)
    ensures Filter(OfZone(z), front + [c]) == if c.zone == z then Filter(OfZone(z), front) + [c] else Filter(OfZone(z), front)
  {
    assert (front + [c])[..|front|] == front;
  }

  lemma GroupOf(byZone: map<string, seq<Change>>, changes: seq<Change>, zone: string)
    requires Grouped(byZone, changes) && zone in ZoneOrder(changes)
    ensures zone in byZone && byZone[zone] == Filter(OfZone(zone), changes)
  {
  }

  lemma NoZones(cfg: WriterConfig, seed: string -> seq<Rec>, faults: Faults, store: Store, changes: seq<Change>)
    ensures WriteZones(cfg, seed, faults, store, [], changes) == Progress(store, Ok(ChangeResult(0, [])))
  {
  }

  // A failure of a prefix is the failure of the whole.

  lemma {:induction false} ApplyAllFails(cfg: WriterConfig, zone: string, recs: seq<Rec>, changes: seq<Change>, i: nat)
    requires i <= |changes| && ApplyAll(cfg, zone, recs, changes[..i]).Err?
    ensures ApplyAll(cfg, zone, recs, changes) == ApplyAll(cfg, zone, recs, changes[..i])
  {
    if i == |changes| {
      assert changes[..i] == changes;
    } else {
      assert changes[..|changes| - 1][..i] == changes[..i];
      ApplyAllFails(cfg, zone, recs, changes[..|changes| - 1], i);
    }
  }

  lemma {:induction false} UnsupportedFails(changes: seq<Change>, i: nat)
    requires i <= |changes| && FirstUnsupported(changes[..i]).Some?
    ensures FirstUnsupported(changes) == FirstUnsupported(changes[..i])
  {
    if i == |changes| {
      assert changes[..i] == changes;
    } else {
      assert changes[..|changes| - 1][..i] == changes[..i];
      UnsupportedFails(changes[..|changes| - 1], i);
    }
  }

  lemma {:induction false} WriteZonesFails(cfg: WriterConfig, seed: string -> seq<Rec>, faults: Faults, store: Store, order: seq<string>, changes: seq<Change>, i: nat)
    requires i <= |order| && WriteZones(cfg, seed, faults, store, order[..i], changes).outcome.Err?
    ensures WriteZones(cfg, seed, faults, store, order, changes) == WriteZones(cfg, seed, faults, store, order[..i], changes)
  {
    if i == |order| {
      assert order[..i] == order;
    } else {
      assert order[..|order| - 1][..i] == order[..i];
      WriteZonesFails(cfg, seed, faults, store, order[..|order| - 1], changes, i);
    }
  }

  lemma NoneOfZone(zone: string, changes: seq<Change>)
    requires zone !in ZoneOrder(changes)
    ensures Filter(OfZone(zone), changes) == []
  {
    FilterNone(OfZone(zone), changes);
  }
}
