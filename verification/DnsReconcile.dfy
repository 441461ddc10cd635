/** One reconcile pass: the desired records are upserted and stale prunable records are deleted. */
module DnsReconcile {
  import opened Wrappers
  import opened Text
  import opened Filtering
  import opened DnsNaming
  import opened DnsZone
  import opened DnsWriter

  /** An RRset's key: zone, label without case, and textual type. */
  function RRKey(zone: string, lab: string, rtype: int): string { zone + "\0" + Lower(lab) + "\0" + TypeString(rtype) }

  function KeyOf(c: Change): string
    requires RecordType(c.rtype).Ok?
  {
    RRKey(c.zone, RelativeLabel(c.name, c.zone), RecordType(c.rtype).value)
  }

  ghost function Want(desired: seq<Change>): set<string> {
    set c | c in desired && RecordType(c.rtype).Ok? :: KeyOf(c)
  }

  function Stale(d: Domains, scope: PruneScope, want: set<string>, zone: string): Rec -> bool {
    (r: Rec) => Prunable(d, scope, zone, r.lab) && RRKey(zone, r.lab, r.rtype) !in want
  }

  function DeleteOf(zone: string, r: Rec): Change {
    Change(Delete, zone, LabelToFQDN(r.lab, zone), TypeString(r.rtype), r.value, [], 0)
  }

  function DeletesOf(zone: string, recs: seq<Rec>): seq<Change> {
    seq(|recs|, i requires 0 <= i < |recs| => DeleteOf(zone, recs[i]))
  }

  function StaleDeletes(d: Domains, scope: PruneScope, want: set<string>, zone: string, recs: seq<Rec>): seq<Change> {
    DeletesOf(zone, Filter(Stale(d, scope, want, zone), recs))
  }

  type Existing = map<string, seq<Rec>>

  /** The changes of a converging batch for one zone. */
  ghost function ZoneBatch(d: Domains, scope: PruneScope, desired: seq<Change>, existing: Existing, zone: string): seq<Change> {
    Filter(OfZone(zone), desired)
    + if zone in existing then StaleDeletes(d, scope, Want(desired), zone, existing[zone]) else []
  }

  lemma DeletesOfZone(zone: string, other: string, recs: seq<Rec>)
    ensures Filter(OfZone(other), DeletesOf(zone, recs)) == if other == zone then DeletesOf(zone, recs) else []
  {
    if other == zone { FilterAll(OfZone(other), DeletesOf(zone, recs)); } else { FilterNone(OfZone(other), DeletesOf(zone, recs)); }
  }

  method WantedKeys(desired: seq<Change>) returns (bad: Option<Error>, want: set<string>)
    ensures bad == FirstUnsupported(desired)
    ensures bad.None? ==> want == Want(desired)
  {
    want := {};
    for i := 0 to |desired|
      invariant FirstUnsupported(desired[..i]) == None
      invariant want == Want(desired[..i])
    {
      assert desired[..i + 1][..i] == desired[..i];
      var rtype := RecordType(desired[i].rtype);
      if rtype.Err? { UnsupportedFails(desired, i + 1); return Some(rtype.error), want; }
      want := want + {RRKey(desired[i].zone, RelativeLabel(desired[i].name, desired[i].zone), rtype.value)};
      WantStep(desired, i);
    }
    assert desired[..|desired|] == desired;
    bad := None;
  }

  lemma WantStep(desired: seq<Change>, i: nat)
    requires i < |desired| && RecordType(desired[i].rtype).Ok?
    ensures Want(desired[..i + 1]) == Want(desired[..i]) + {KeyOf(desired[i])}
  {
    assert desired[..i + 1] == desired[..i] + [desired[i]];
  }

  method DeleteStale(d: Domains, scope: PruneScope, want: set<string>, zone: string, recs: seq<Rec>, before: seq<Change>) returns (out: seq<Change>)
    ensures out == before + StaleDeletes(d, scope, want, zone, recs)
  {
    out := before;
    for i := 0 to |recs|
      invariant out == before + StaleDeletes(d, scope, want, zone, recs[..i])
    {
      assert recs[..i + 1][..i] == recs[..i];
      if Prunable(d, scope, zone, recs[i].lab) {
        if RRKey(zone, recs[i].lab, recs[i].rtype) !in want {
          out := out + [Change(Delete, zone, LabelToFQDN(recs[i].lab, zone), TypeString(recs[i].rtype), recs[i].value, [], 0)];
        }
      }
    }
    assert recs[..|recs|] == recs;
  }

  /**
   The desired changes followed by the deletes of stale records. Zones are
   visited in no fixed order, so the result is fixed zone by zone.
   */
  method ComputeConverge(d: Domains, scope: PruneScope, desired: seq<Change>, existing: Existing) returns (r: Result<seq<Change>>)
    ensures r.Err? <==> FirstUnsupported(desired).Some?
    ensures r.Err? ==> r.error == FirstUnsupported(desired).value
    ensures r.Ok? ==> desired <= r.value
    ensures r.Ok? ==> forall z :: Filter(OfZone(z), r.value) == ZoneBatch(d, scope, desired, existing, z)
  {
    var bad, want := WantedKeys(desired);
    if bad.Some? { return Err(bad.value); }
    var out := desired;
    var todo := existing.Keys;
    while todo != {}
      invariant todo <= existing.Keys
      invariant desired <= out
      invariant forall z :: Filter(OfZone(z), out) == ZoneBatch(d, scope, desired, existing - todo, z)
      decreases |todo|
    {
      var zone :| zone in todo;
      ghost var before := out;
      out := DeleteStale(d, scope, want, zone, existing[zone], out);
      forall z ensures Filter(OfZone(z), out) == ZoneBatch(d, scope, desired, existing - (todo - {zone}), z) {
        DeletesOfZone(zone, z, Filter(Stale(d, scope, want, zone), existing[zone]));
        FilterAppend(OfZone(z), before, StaleDeletes(d, scope, want, zone, existing[zone]));
      }
      todo := todo - {zone};
    }
    assert existing - {} == existing;
    return Ok(out);
  }

  // Reading the zones that hold prunable records.

  function ReadList(d: Domains, scope: PruneScope): seq<string> {
    [d.base] + (if scope.ec2 then [PrivateOf(d)] else []) + (if scope.serviceEndpoint && d.service != "" then [d.service] else [])
  }

  ghost function Readable(zones: seq<string>, store: Store): Existing {
    map z | z in zones && z != "" && z in store && store[z].Zone? :: store[z].records
  }

  /** What a pass reads: the present, parsable zones of its list. A missing or corrupt zone is not read. */
  ghost function ReadZones(d: Domains, scope: PruneScope, store: Store): Existing { Readable(ReadList(d, scope), store) }

  ghost predicate ReadFails(d: Domains, scope: PruneScope, faults: Faults) {
    exists z :: z in ReadList(d, scope) && z != "" && z in faults.unreachable
  }

  lemma ReadableStep(zones: seq<string>, i: nat, store: Store)
    requires i < |zones|
    ensures var z, before := zones[i], Readable(zones[..i], store);
      Readable(zones[..i + 1], store) == if z != "" && z in store && store[z].Zone? then before[z := store[z].records] else before
    ensures zones[i] in Readable(zones[..i], store) ==> Readable(zones[..i + 1], store) == Readable(zones[..i], store)
  {
    assert zones[..i + 1] == zones[..i] + [zones[i]];
  }

  method ReadAll(zones: seq<string>, store: Store, faults: Faults) returns (r: Result<Existing>)
    ensures r.Err? <==> exists z :: z in zones && z != "" && z in faults.unreachable
    ensures r.Ok? ==> r.value == Readable(zones, store)
  {
    hide Readable;
    var existing: Existing := map[];
    NothingRead(store);
    assert zones[..0] == [];
    for i := 0 to |zones|
      invariant existing == Readable(zones[..i], store)
      invariant forall k :: 0 <= k < i && zones[k] != "" ==> zones[k] !in faults.unreachable
    {
      ReadableStep(zones, i, store);
      if zones[i] in existing { SeenBefore(zones, i, store); }
      if zones[i] in existing || zones[i] == "" { continue; }
      if zones[i] in faults.unreachable { return Err(Unreachable(zones[i])); }
      if zones[i] in store && store[zones[i]].Zone? {
        existing := existing[zones[i] := store[zones[i]].records];
      }
    }
    assert zones[..|zones|] == zones;
    r := Ok(existing);
  }

  lemma NothingRead(store: Store)
    ensures Readable([], store) == map[]
  {
  }

  lemma SeenBefore(zones: seq<string>, i: nat, store: Store)
    requires i < |zones| && zones[i] in Readable(zones[..i], store)
    ensures exists k :: 0 <= k < i && zones[k] == zones[i]
  {
  }

  method ComputeBatch(d: Domains, scope: PruneScope, desired: seq<Change>, store: Store, faults: Faults) returns (r: Result<seq<Change>>)
    ensures ReadFails(d, scope, faults) ==> r.Err?
    ensures !ReadFails(d, scope, faults) ==> (r.Err? <==> FirstUnsupported(desired).Some?)
    ensures r.Ok? ==> desired <= r.value
    ensures r.Ok? ==> forall z :: Filter(OfZone(z), r.value) == ZoneBatch(d, scope, desired, ReadZones(d, scope, store), z)
  {
    hide ZoneBatch, FirstUnsupported, Filter, Want, Readable, ReadList;
    var existing := ReadAll(ReadList(d, scope), store, faults);
    if existing.Err? { return Err(existing.error); }
    r := ComputeConverge(d, scope, desired, existing.value);
  }

  /** Everything a pass depends on besides the store. */
  datatype Setup = Setup(cfg: WriterConfig, seed: string -> seq<Rec>, faults: Faults, d: Domains, scope: PruneScope, desired: seq<Change>)

  /** `batch` is the desired set followed, zone by zone, by the deletes of what is stale in `before`. */
  ghost predicate Converging(s: Setup, before: Store, batch: seq<Change>) {
    && s.desired <= batch
    && forall z :: Filter(OfZone(z), batch) == ZoneBatch(s.d, s.scope, s.desired, ReadZones(s.d, s.scope, before), z)
  }

  /** `batch` converges the desired set against what `before` holds, and applying it gave `after` and `res`. */
  ghost predicate PassOf(s: Setup, before: Store, after: Store, res: ChangeResult, batch: seq<Change>) {
    Converging(s, before, batch) && Progress(after, Ok(res)) == Batch(s.cfg, s.seed, s.faults, before, batch)
  }

  /** One pass of the elected node: compute the batch, then apply it to the same store. */
  method ReconcileOnce(w: Writer, d: Domains, scope: PruneScope, desired: seq<Change>) returns (r: Result<ChangeResult>, ghost batch: seq<Change>)
    modifies w`store
    ensures r.Ok? ==> PassOf(Setup(w.cfg, w.seed, w.faults, d, scope, desired), old(w.store), w.store, r.value, batch)
    ensures if ReadFails(d, scope, w.faults) || FirstUnsupported(desired).Some? then r.Err? && w.store == old(w.store)
            else && Converging(Setup(w.cfg, w.seed, w.faults, d, scope, desired), old(w.store), batch)
                 && Progress(w.store, r) == Batch(w.cfg, w.seed, w.faults, old(w.store), batch)
  {
    hide ZoneBatch, ReadZones, ReadFails, WriteZones, Filter;
    var computed := ComputeBatch(d, scope, desired, w.store, w.faults);
    if computed.Err? { batch := []; return Err(computed.error), batch; }
    batch := computed.value;
    if computed.value == [] {
      NoZones(w.cfg, w.seed, w.faults, w.store, []);
      return Ok(ChangeResult(0, [])), batch;
    }
    r := w.ApplyBatch(computed.value);
  }
}
