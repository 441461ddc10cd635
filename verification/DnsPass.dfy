/** Whole passes over the store: convergence of every zone, prune safety, and the fixpoint. */
module DnsPass {
  import opened Wrappers
  import opened Text
  import opened Filtering
  import opened DnsNaming
  import opened DnsZone
  import opened DnsWriter
  import opened DnsReconcile
  import opened DnsConvergence

  function At(store: Store, zone: string): Option<Object> { if zone in store then Some(store[zone]) else None }

  lemma RewriteLocal(cfg: WriterConfig, seed: string -> seq<Rec>, faults: Faults, s: Store, t: Store, zone: string, changes: seq<Change>)
    requires At(s, zone) == At(t, zone)
    ensures Rewrite(cfg, seed, faults, s, zone, changes) == Rewrite(cfg, seed, faults, t, zone, changes)
  {
  }

  /** Zones are written independently: each ends as its own rewrite of the original store says. */
  lemma {:induction false} WriteZonesMeaning(cfg: WriterConfig, seed: string -> seq<Rec>, faults: Faults, store: Store, order: seq<string>, changes: seq<Change>, z: string)
    requires forall i, j :: 0 <= i < j < |order| ==> order[i] != order[j]
    requires WriteZones(cfg, seed, faults, store, order, changes).outcome.Ok?
    ensures var p := WriteZones(cfg, seed, faults, store, order, changes); var mine := Filter(OfZone(z), changes);
            if z in order
            then && Rewrite(cfg, seed, faults, store, z, mine).Ok?
                 && At(p.store, z) == At(StoreAfter(store, z, Rewrite(cfg, seed, faults, store, z, mine).value), z)
                 && (z in p.outcome.value.zones <==> Rewrite(cfg, seed, faults, store, z, mine).value.Some?)
            else At(p.store, z) == At(store, z) && z !in p.outcome.value.zones
  {
    hide Rewrite, Filter;
    if order != [] {
      var front, last := order[..|order| - 1], order[|order| - 1];
      WriteZonesMeaning(cfg, seed, faults, store, front, changes, z);
      WriteZonesMeaning(cfg, seed, faults, store, front, changes, last);
      var earlier := WriteZones(cfg, seed, faults, store, front, changes);
      assert last !in front;
      RewriteLocal(cfg, seed, faults, store, earlier.store, last, Filter(OfZone(last), changes));
      assert z in order <==> z in front || z == last by { assert order == front + [last]; }
    }
  }

  // One zone's share of a pass.

  ghost predicate IsRead(s: Setup, store: Store, z: string) { z in ReadZones(s.d, s.scope, store) }

  ghost function Mine(s: Setup, store: Store, z: string): seq<Change> {
    ZoneBatch(s.d, s.scope, s.desired, ReadZones(s.d, s.scope, store), z)
  }

  ghost function RewriteMine(s: Setup, store: Store, z: string): Result<Option<seq<Rec>>> {
    Rewrite(s.cfg, s.seed, s.faults, store, z, Mine(s, store, z))
  }

  /** A zone is rewritten as its own changes say, or left alone when it has none. */
  lemma PassZone(s: Setup, before: Store, after: Store, res: ChangeResult, batch: seq<Change>, z: string)
    requires PassOf(s, before, after, res, batch)
    ensures if Mine(s, before, z) == []
            then At(after, z) == At(before, z) && z !in res.zones
            else && RewriteMine(s, before, z).Ok?
                 && At(after, z) == At(StoreAfter(before, z, RewriteMine(s, before, z).value), z)
                 && (z in res.zones <==> RewriteMine(s, before, z).value.Some?)
  {
    hide Rewrite, ZoneBatch, FirstUnsupported;
    WriteZonesMeaning(s.cfg, s.seed, s.faults, before, ZoneOrder(batch), batch, z);
    FilterMember(OfZone(z), batch);
    if z in ZoneOrder(batch) {
      var i :| 0 <= i < |batch| && batch[i].zone == z;
      assert batch[i] in Filter(OfZone(z), batch);
    } else {
      NoneOfZone(z, batch);
    }
  }

  /** Every zone the pass prunes has a plain name and lower-case labels, canonical where they may be pruned. */
  ghost predicate GoodStore(s: Setup, store: Store) {
    forall z :: IsRead(s, store, z) ==> NulFree(z) && PlainZone(z) && GoodZone(s.d, s.scope, z, store[z].records)
  }

  ghost predicate ConvergedZone(s: Setup, z: string, read: bool, from: seq<Rec>, to: seq<Rec>) {
    Converged(s.cfg, s.d, s.scope, s.desired, z, read, from, to)
  }

  lemma PresentEdit(s: Setup, before: Store, after: Store, res: ChangeResult, batch: seq<Change>, z: string)
    requires PassOf(s, before, after, res, batch) && z in before && before[z].Zone?
    ensures ApplyAll(s.cfg, z, before[z].records, Mine(s, before, z)).Ok?
    ensures At(after, z) == Some(Zone(ApplyAll(s.cfg, z, before[z].records, Mine(s, before, z)).value.records))
    ensures z in res.zones <==> ApplyAll(s.cfg, z, before[z].records, Mine(s, before, z)).value.changed
  {
    hide PassOf, Mine;
    PassZone(s, before, after, res, batch, z);
    if Mine(s, before, z) != [] {
      var edit := ApplyAll(s.cfg, z, before[z].records, Mine(s, before, z)).value;
      if !edit.changed { UnchangedSame(s.cfg, z, before[z].records, Mine(s, before, z)); }
    }
  }

  /**
   A pass over a stored zone leaves each desired RRset with exactly its desired
   values, empties stale prunable records if the zone was read, and keeps every
   other record in place and in order.
   */
  lemma PassConverges(s: Setup, before: Store, after: Store, res: ChangeResult, batch: seq<Change>, z: string)
    requires PassOf(s, before, after, res, batch) && GoodDesired(s.desired) && GoodStore(s, before)
    requires z in before && before[z].Zone?
    ensures z in after && after[z].Zone?
    ensures ConvergedZone(s, z, IsRead(s, before, z), before[z].records, after[z].records)
  {
    PresentEdit(s, before, after, res, batch, z);
    hide PassOf, ApplyAll, Converged, GoodDesired, GoodZone, PlainZone, NulFree, StaleDeletes;
    if IsRead(s, before, z) {
      assert Mine(s, before, z) == Ups(s.desired, z) + StaleDeletes(s.d, s.scope, Want(s.desired), z, before[z].records);
      ReadZoneConverges(s.cfg, s.d, s.scope, s.desired, z, before[z].records);
    } else {
      assert Mine(s, before, z) == Ups(s.desired, z);
      UnreadZoneConverges(s.cfg, s.d, s.scope, s.desired, z, before[z].records);
    }
  }

  /** The desired set names the zone and its seed does not hold it already. */
  ghost predicate Rebuilds(s: Setup, z: string) {
    Ups(s.desired, z) != [] && !Holds(s.cfg, Ups(s.desired, z), z, s.seed(z))
  }

  /** A missing or corrupt zone is rebuilt from its seed exactly when it is named and its seed does not hold the desired sets. */
  lemma PassRebuilds(s: Setup, before: Store, after: Store, res: ChangeResult, batch: seq<Change>, z: string)
    requires PassOf(s, before, after, res, batch) && GoodDesired(s.desired) && NeedsSeed(before, z)
    ensures z in res.zones <==> Rebuilds(s, z)
    ensures if Rebuilds(s, z) then z in after && after[z].Zone? && ConvergedZone(s, z, false, s.seed(z), after[z].records)
            else At(after, z) == At(before, z)
  {
    PassZone(s, before, after, res, batch, z);
    hide PassOf;
    MineUnread(s, before, z);
    hide Mine, RewriteMine, ConvergedZone, GoodDesired, Holds, Ups;
    if Ups(s.desired, z) != [] { SeedEdit(s, before, z); }
  }

  lemma MineUnread(s: Setup, before: Store, z: string)
    requires !IsRead(s, before, z)
    ensures Mine(s, before, z) == Ups(s.desired, z)
  {
    hide Filter;
    assert Ups(s.desired, z) + [] == Ups(s.desired, z);
  }

  lemma SeedEdit(s: Setup, before: Store, z: string)
    requires GoodDesired(s.desired) && NeedsSeed(before, z) && RewriteMine(s, before, z).Ok? && Ups(s.desired, z) != []
    ensures RewriteMine(s, before, z).value.None? <==> Holds(s.cfg, Ups(s.desired, z), z, s.seed(z))
    ensures RewriteMine(s, before, z).value.Some? ==> ConvergedZone(s, z, false, s.seed(z), RewriteMine(s, before, z).value.value)
  {
    MineUnread(s, before, z);
    hide ZoneBatch, Mine, ReadZones, ApplyAll, GoodDesired, Holds, Ups, Untouched, Kept;
    var ups := Ups(s.desired, z);
    UpsGood(s.desired, z);
    assert IsDesired(ups[0]) && HasUpsert(ups);
    UnreadZoneConverges(s.cfg, s.d, s.scope, s.desired, z, s.seed(z));
    if Holds(s.cfg, ups, z, s.seed(z)) { HoldsNoop(s.cfg, z, s.seed(z), ups); }
    if !ApplyAll(s.cfg, z, s.seed(z), ups).value.changed { UnchangedSame(s.cfg, z, s.seed(z), ups); }
  }

  // What is published.

  /** The values a desired change asks for. */
  ghost predicate Asks(c: Change, value: string) { if c.action == Upsert then value == c.value else value in c.values }

  /** The zone holds the change's values under its name and type with its time to live, or the default one, and no others. */
  ghost predicate Publishes(cfg: WriterConfig, c: Change, t: int, recs: seq<Rec>) {
    var lab, ttl := RelativeLabel(c.name, c.zone), if c.ttl == 0 then cfg.ttl else c.ttl;
    && (forall r :: r in recs && Lower(r.lab) == Lower(lab) && r.rtype == t ==> r.lab == lab && r.ttl == ttl && Asks(c, r.value))
    && (forall value :: Asks(c, value) ==> Rec(lab, t, value, ttl) in recs)
  }

  lemma HoldsPublishes(cfg: WriterConfig, ups: seq<Change>, z: string, recs: seq<Rec>, i: nat)
    requires i < |ups| && Holds(cfg, ups, z, recs) && ups[i].zone == z && IsDesired(ups[i])
    ensures RecordType(ups[i].rtype).Ok? && Publishes(cfg, ups[i], RecordType(ups[i].rtype).value, recs)
  {
    hide RelativeLabel, Lower, RecordType;
    var c := ups[i];
    var set_ := SetOf(c, z);
    FilterMember(set_, recs);
    assert Filter(set_, recs) == Desired(cfg, c, z);
    forall value | Asks(c, value) ensures Rec(LabelIn(c, z), TypeOf(c), value, TTLOf(cfg, c)) in recs {
      var k :| 0 <= k < |ValuesOf(c)| && ValuesOf(c)[k] == value;
      assert Desired(cfg, c, z)[k] == Rec(LabelIn(c, z), TypeOf(c), value, TTLOf(cfg, c));
    }
  }

  /** After a pass, every zone it stores or finds stored publishes each desired change for it. */
  lemma PassPublishes(s: Setup, before: Store, after: Store, res: ChangeResult, batch: seq<Change>, c: Change)
    requires PassOf(s, before, after, res, batch) && GoodDesired(s.desired) && GoodStore(s, before) && c in s.desired
    requires (c.zone in before && before[c.zone].Zone?) || Rebuilds(s, c.zone)
    ensures c.zone in after && after[c.zone].Zone?
    ensures RecordType(c.rtype).Ok? && Publishes(s.cfg, c, RecordType(c.rtype).value, after[c.zone].records)
  {
    hide PassOf, GoodDesired, GoodStore, Holds, Publishes, Untouched, Kept, RecordType, Ups;
    var z := c.zone;
    if NeedsSeed(before, z) { PassRebuilds(s, before, after, res, batch, z); } else { PassConverges(s, before, after, res, batch, z); }
    UpsGood(s.desired, z);
    FilterMember(OfZone(z), s.desired);
    assert Ups(s.desired, z) == Filter(OfZone(z), s.desired) by { UpsIsFilter(s.desired, z); }
    assert c in Ups(s.desired, z);
    var i :| 0 <= i < |Ups(s.desired, z)| && Ups(s.desired, z)[i] == c;
    HoldsPublishes(s.cfg, Ups(s.desired, z), z, after[z].records, i);
  }

  lemma UpsIsFilter(desired: seq<Change>, z: string)
    ensures Ups(desired, z) == Filter(OfZone(z), desired)
  {
  }

  // Prune safety.

  /** A delete a pass may issue: for a stored record of a zone it read, in a class it has authority over, and not desired. */
  ghost predicate SafeDelete(s: Setup, before: Store, c: Change, r: Rec) {
    && IsRead(s, before, c.zone)
    && r in before[c.zone].records
    && c == DeleteOf(c.zone, r)
    && Prunable(s.d, s.scope, c.zone, r.lab)
    && RRKey(c.zone, r.lab, r.rtype) !in Want(s.desired)
  }

  lemma DeletesAreSafe(s: Setup, before: Store, after: Store, res: ChangeResult, batch: seq<Change>, c: Change)
    requires PassOf(s, before, after, res, batch) && c in batch && c !in s.desired
    ensures exists r :: SafeDelete(s, before, c, r)
  {
    hide Batch;
    FilterMember(OfZone(c.zone), batch);
    assert c in Mine(s, before, c.zone);
    hide PassOf;
    MineSafe(s, before, c);
  }

  lemma MineSafe(s: Setup, before: Store, c: Change)
    requires c in Mine(s, before, c.zone) && c !in s.desired
    ensures exists r :: SafeDelete(s, before, c, r)
  {
    hide StaleDeletes, SafeDelete;
    FilterMember(OfZone(c.zone), s.desired);
    StaleSafe(s, before, c);
  }

  lemma StaleSafe(s: Setup, before: Store, c: Change)
    requires IsRead(s, before, c.zone) && c in StaleDeletes(s.d, s.scope, Want(s.desired), c.zone, before[c.zone].records)
    ensures exists r :: SafeDelete(s, before, c, r)
  {
    hide Want, Prunable, RRKey, ReadList;
    var recs := before[c.zone].records;
    var stale := Filter(Stale(s.d, s.scope, Want(s.desired), c.zone), recs);
    var i :| 0 <= i < |stale| && DeletesOf(c.zone, stale)[i] == c;
    FilterMember(Stale(s.d, s.scope, Want(s.desired), c.zone), recs);
    assert stale[i] in stale;
    assert SafeDelete(s, before, c, stale[i]);
  }

  /**
   Every change outside the desired set is for the base, private or service
   zone, and its name belongs to a class over which a flag that is on gives
   authority there.
   */
  lemma DeletesBearMarks(s: Setup, before: Store, after: Store, res: ChangeResult, batch: seq<Change>, c: Change)
    requires PassOf(s, before, after, res, batch) && c in batch && c !in s.desired
    ensures c.zone in {s.d.base, PrivateOf(s.d), s.d.service}
    ensures PlainZone(c.zone) ==> OfClass(s.d, s.scope, c.zone, RelativeLabel(c.name, c.zone))
  {
    DeletesAreSafe(s, before, after, res, batch, c);
    hide PassOf, Want, RRKey, ReadList, RelativeLabel, PlainZone, Marked, Starts, Spelled, Prunable;
    var r :| SafeDelete(s, before, c, r);
    PrunableSpelled(s.d, s.scope, c.zone, r.lab);
    if PlainZone(c.zone) && (c.zone == s.d.base || c.zone == PrivateOf(s.d)) {
      ApexPrunable(s.d, s.scope, c.zone);
      DotPrunable(s.d, s.scope, c.zone);
      NameSpelled(r.lab, c.zone);
    }
  }

  lemma NameSpelled(lab: string, zone: string)
    requires PlainZone(zone) && lab != "" && lab != "."
    ensures RelativeLabel(LabelToFQDN(lab, zone), zone) == Spelled(lab)
  {
    hide RelativeLabel;
    LabelBelow(TrimDot(lab), zone);
  }

  /** In the base zone and the private zone, the apex is never the name of a delete. */
  lemma ApexNeverDeleted(s: Setup, before: Store, after: Store, res: ChangeResult, batch: seq<Change>, c: Change)
    requires PassOf(s, before, after, res, batch) && c in batch && c !in s.desired
    requires (c.zone == s.d.base || c.zone == PrivateOf(s.d)) && PlainZone(c.zone)
    ensures RelativeLabel(c.name, c.zone) != ""
  {
    hide PassOf, Prunable, Want, RRKey, ReadList, RelativeLabel;
    DeletesAreSafe(s, before, after, res, batch, c);
    var r :| SafeDelete(s, before, c, r);
    ApexPrunable(s.d, s.scope, c.zone);
    DotPrunable(s.d, s.scope, c.zone);
    assert r.lab != "" && r.lab != ".";
    LabelBelow(TrimDot(r.lab), c.zone);
  }

  /** Without authority over any class a pass deletes nothing. */
  lemma NoAuthorityNoDeletes(s: Setup, before: Store, after: Store, res: ChangeResult, batch: seq<Change>)
    requires PassOf(s, before, after, res, batch) && s.scope == NO_AUTHORITY
    ensures batch == s.desired
  {
    hide Batch, ZoneBatch, Filter;
    var deletes := batch[|s.desired|..];
    assert batch == s.desired + deletes;
    forall z ensures Filter(OfZone(z), deletes) == [] {
      assert Filter(OfZone(z), batch) == Mine(s, before, z);
      NoAuthorityMine(s, before, z);
      FilterAppend(OfZone(z), s.desired, deletes);
    }
    NoSharesNoChanges(deletes);
  }

  lemma NoSharesNoChanges(changes: seq<Change>)
    requires forall z :: Filter(OfZone(z), changes) == []
    ensures changes == []
  {
    assert changes != [] ==> changes[0] in changes;
    var z := if changes == [] then "" else changes[0].zone;
    FilterMember(OfZone(z), changes);
    assert Filter(OfZone(z), changes) == [];
  }

  lemma NoAuthorityMine(s: Setup, before: Store, z: string)
    requires s.scope == NO_AUTHORITY
    ensures Mine(s, before, z) == Ups(s.desired, z)
  {
    if IsRead(s, before, z) {
      FilterNone(Stale(s.d, s.scope, Want(s.desired), z), before[z].records);
      assert Ups(s.desired, z) + [] == Ups(s.desired, z);
    } else {
      MineUnread(s, before, z);
    }
  }

  /** A stored record in none of the desired RRsets of its zone. */
  ghost predicate Undesired(s: Setup, z: string, r: Rec) {
    forall c :: c in s.desired && c.zone == z ==> !(Lower(r.lab) == Lower(RelativeLabel(c.name, z)) && RecordType(c.rtype) == Ok(r.rtype))
  }

  lemma UndesiredUntouched(s: Setup, z: string, r: Rec)
    requires GoodDesired(s.desired) && Undesired(s, z, r)
    ensures Untouched(Ups(s.desired, z), z)(r)
  {
    hide GoodDesired, RelativeLabel, Lower, Ups, GoodLabel;
    var ups := Ups(s.desired, z);
    UpsGood(s.desired, z);
    forall i | 0 <= i < |ups| ensures !SetOf(ups[i], z)(r) { assert ups[i] in s.desired && IsDesired(ups[i]); }
  }

  /** Outside the desired RRsets a pass keeps a stored record, unless it read the zone and the record is of a class it has authority over and of a supported type. */
  lemma RecordSurvives(s: Setup, before: Store, after: Store, res: ChangeResult, batch: seq<Change>, z: string, r: Rec)
    requires PassOf(s, before, after, res, batch) && GoodDesired(s.desired) && GoodStore(s, before)
    requires z in before && before[z].Zone? && r in before[z].records && Undesired(s, z, r)
    ensures z in after && after[z].Zone?
    ensures r in after[z].records <==> !(IsRead(s, before, z) && OfClass(s.d, s.scope, z, r.lab) && CanonicalLabel(r.lab) && Supported(r.rtype))
  {
    PassConverges(s, before, after, res, batch, z);
    UndesiredUntouched(s, z, r);
    hide PassOf, GoodDesired, OfClass, Prunable, Untouched, Ups, Holds, ReadList, CanonicalLabel, Undesired;
    var ups, read := Ups(s.desired, z), IsRead(s, before, z);
    FilterMember(Untouched(ups, z), after[z].records);
    FilterMember(Kept(s.d, s.scope, ups, z, read), before[z].records);
    assert r in Filter(Untouched(ups, z), after[z].records) <==> r in Filter(Kept(s.d, s.scope, ups, z, read), before[z].records);
    if read && CanonicalLabel(r.lab) { PrunableMeaning(s.d, s.scope, z, r.lab); }
  }

  /** The zones a pass prunes: the base zone, the private zone with the instance flag, the service zone with its flag. */
  ghost predicate Pruned(s: Setup, z: string) {
    z != "" && (z == s.d.base || (s.scope.ec2 && z == PrivateOf(s.d)) || (s.scope.serviceEndpoint && z == s.d.service))
  }

  lemma ReadMeaning(s: Setup, store: Store, z: string)
    ensures IsRead(s, store, z) <==> Pruned(s, z) && z in store && store[z].Zone?
  {
    hide PrivateOf;
    var list := ReadList(s.d, s.scope);
    assert z != "" ==> (z in list <==> Pruned(s, z));
  }

  /** In a pruned zone that is stored and readable, a record of an authorised class and a supported type that nothing desires is gone after the pass. */
  lemma StaleRemoved(s: Setup, before: Store, after: Store, res: ChangeResult, batch: seq<Change>, z: string, r: Rec)
    requires PassOf(s, before, after, res, batch) && GoodDesired(s.desired) && GoodStore(s, before)
    requires Pruned(s, z) && z in before && before[z].Zone? && r in before[z].records && Undesired(s, z, r)
    requires OfClass(s.d, s.scope, z, r.lab) && CanonicalLabel(r.lab) && r.rtype in {1, 2, 16}
    ensures z in after && after[z].Zone? && r !in after[z].records
  {
    hide PassOf, GoodDesired, GoodStore, IsRead, Undesired, OfClass, Pruned, CanonicalLabel;
    ReadMeaning(s, before, z);
    RecordSurvives(s, before, after, res, batch, z, r);
  }

  const ALL_AUTHORITY := PruneScope(true, true, true, true, true, true)

  /** A base-zone record without a mark of any class, outside the desired RRsets, survives every pass, whatever the flags. */
  lemma UnmarkedSurvives(s: Setup, before: Store, after: Store, res: ChangeResult, batch: seq<Change>, r: Rec)
    requires PassOf(s, before, after, res, batch) && GoodDesired(s.desired) && GoodStore(s, before) && s.d.base != PrivateOf(s.d)
    requires s.d.base in before && before[s.d.base].Zone? && r in before[s.d.base].records && Undesired(s, s.d.base, r)
    requires !Marked(ALL_AUTHORITY, r.lab)
    ensures s.d.base in after && after[s.d.base].Zone? && r in after[s.d.base].records
  {
    hide PassOf, GoodDesired, GoodStore, IsRead, Undesired, Numbered, Starts, Carries;
    RecordSurvives(s, before, after, res, batch, s.d.base, r);
  }

  /** The zones a pass never deletes from: those missing or corrupt, and those outside its read list. */
  lemma UnreadNeverPruned(s: Setup, before: Store, after: Store, res: ChangeResult, batch: seq<Change>, z: string)
    requires PassOf(s, before, after, res, batch) && (NeedsSeed(before, z) || z !in ReadList(s.d, s.scope))
    ensures Filter(OfZone(z), batch) == Filter(OfZone(z), s.desired)
  {
    assert Filter(OfZone(z), batch) == Mine(s, before, z);
    hide PassOf;
    MineUnread(s, before, z);
  }

  // Fixpoint.

  /** The pruned zones have plain names and seeds of canonical records. */
  ghost predicate GoodSeeds(s: Setup) {
    forall z :: z in ReadList(s.d, s.scope) && z != "" ==> NulFree(z) && PlainZone(z) && GoodZone(s.d, s.scope, z, s.seed(z))
  }

  ghost predicate SettledZone(s: Setup, z: string, read: bool, recs: seq<Rec>) {
    Settled(s.cfg, s.d, s.scope, s.desired, z, read, recs)
  }

  /** No zone leaves a pass anything to do. */
  ghost predicate SettledStore(s: Setup, store: Store) {
    forall z :: SettledAt(s, store, z)
  }

  ghost predicate SettledAt(s: Setup, store: Store, z: string) {
    if NeedsSeed(store, z) then !Rebuilds(s, z) else SettledZone(s, z, IsRead(s, store, z), store[z].records)
  }

  lemma ConvergedGood(s: Setup, z: string, read: bool, from: seq<Rec>, to: seq<Rec>)
    requires GoodDesired(s.desired) && GoodZone(s.d, s.scope, z, from) && ConvergedZone(s, z, read, from, to)
    ensures GoodZone(s.d, s.scope, z, to)
  {
    hide GoodDesired, Untouched, RelativeLabel, Prunable, Lower, Ups, SetOf, CanonicalLabel, IsDesired;
    var ups := Ups(s.desired, z);
    UpsGood(s.desired, z);
    FilterMember(Untouched(ups, z), to);
    FilterMember(Kept(s.d, s.scope, ups, z, read), from);
    forall r | r in to ensures Lower(r.lab) == r.lab && NulFree(r.lab) && (Prunable(s.d, s.scope, z, r.lab) ==> CanonicalLabel(r.lab)) {
      if Untouched(ups, z)(r) {
        assert r in Filter(Untouched(ups, z), to);
      } else {
        DesiredLabel(s, z, to, r);
      }
    }
  }

  lemma DesiredLabel(s: Setup, z: string, recs: seq<Rec>, r: Rec)
    requires GoodDesired(s.desired) && Holds(s.cfg, Ups(s.desired, z), z, recs) && r in recs && !Untouched(Ups(s.desired, z), z)(r)
    ensures Lower(r.lab) == r.lab && NulFree(r.lab) && CanonicalLabel(r.lab)
  {
    hide GoodDesired, RelativeLabel, Ups, SetOf, IsDesired;
    var ups := Ups(s.desired, z);
    UpsGood(s.desired, z);
    var i :| 0 <= i < |ups| && SetOf(ups[i], z)(r);
    FilterMember(SetOf(ups[i], z), recs);
    assert r in Desired(s.cfg, ups[i], z);
  }

  /** A pass leaves the store fit for the next one. */
  lemma PassKeepsGood(s: Setup, before: Store, after: Store, res: ChangeResult, batch: seq<Change>)
    requires PassOf(s, before, after, res, batch) && GoodDesired(s.desired) && GoodSeeds(s) && GoodStore(s, before)
    ensures GoodStore(s, after)
  {
    forall z | IsRead(s, after, z) ensures NulFree(z) && PlainZone(z) && GoodZone(s.d, s.scope, z, after[z].records) {
      hide PassOf, GoodDesired, GoodZone, PlainZone, NulFree, ReadList, Converged, Holds;
      if NeedsSeed(before, z) {
        PassRebuilds(s, before, after, res, batch, z);
        ConvergedGood(s, z, false, s.seed(z), after[z].records);
      } else {
        PassConverges(s, before, after, res, batch, z);
        assert IsRead(s, before, z);
        ConvergedGood(s, z, true, before[z].records, after[z].records);
      }
    }
  }

  /** The seed of a zone holds nothing a pass would prune. */
  ghost predicate SeedClean(s: Setup, z: string) {
    forall r :: r in s.seed(z) && Untouched(Ups(s.desired, z), z)(r) ==> !(Prunable(s.d, s.scope, z, r.lab) && Supported(r.rtype))
  }

  lemma RebuiltSettled(s: Setup, z: string, read: bool, recs: seq<Rec>)
    requires ConvergedZone(s, z, false, s.seed(z), recs)
    ensures SettledZone(s, z, read, recs) <==> (read ==> SeedClean(s, z))
  {
    hide Holds, Ups, Untouched, Prunable, Supported;
    var ups := Ups(s.desired, z);
    FilterMember(Untouched(ups, z), recs);
    FilterMember(Kept(s.d, s.scope, ups, z, false), s.seed(z));
    forall r ensures r in recs && Untouched(ups, z)(r) <==> r in s.seed(z) && Untouched(ups, z)(r) {
      assert r in Filter(Untouched(ups, z), recs) <==> r in Filter(Kept(s.d, s.scope, ups, z, false), s.seed(z));
    }
  }

  /** A zone read by the next pass that this one has to build from a seed holding prunable records. */
  ghost predicate UncleanRebuild(s: Setup, before: Store, z: string) {
    NeedsSeed(before, z) && Rebuilds(s, z) && z in ReadList(s.d, s.scope) && z != "" && !SeedClean(s, z)
  }

  /** A pass settles every zone except the pruned ones it has to rebuild from a seed with prunable records. */
  lemma PassSettles(s: Setup, before: Store, after: Store, res: ChangeResult, batch: seq<Change>, z: string)
    requires PassOf(s, before, after, res, batch) && GoodDesired(s.desired) && GoodStore(s, before)
    ensures SettledAt(s, after, z) <==> !UncleanRebuild(s, before, z)
  {
    hide PassOf, GoodDesired, ReadList, Converged, Settled, Holds, SeedClean, Ups;
    if NeedsSeed(before, z) {
      PassRebuilds(s, before, after, res, batch, z);
      if Rebuilds(s, z) { RebuiltSettled(s, z, IsRead(s, after, z), after[z].records); }
    } else {
      PassConverges(s, before, after, res, batch, z);
      ConvergedSettled(s.cfg, s.d, s.scope, s.desired, z, IsRead(s, before, z), before[z].records, after[z].records);
    }
  }

  lemma SettledEdit(s: Setup, store: Store, z: string)
    requires GoodDesired(s.desired) && GoodStore(s, store) && !NeedsSeed(store, z) && SettledAt(s, store, z)
    ensures RewriteMine(s, store, z).Ok? ==> RewriteMine(s, store, z).value == None
  {
    hide GoodDesired, ApplyAll, Settled, ReadList, PlainZone, GoodZone, StaleDeletes, Want;
    assert Mine(s, store, z) == Ups(s.desired, z)
      + if IsRead(s, store, z) then StaleDeletes(s.d, s.scope, Want(s.desired), z, store[z].records) else [];
    hide Ups;
    SettledNoop(s.cfg, s.d, s.scope, s.desired, z, IsRead(s, store, z), store[z].records);
  }

  /** A pass rewrites exactly the zones that are not settled. */
  lemma PassRewrites(s: Setup, before: Store, after: Store, res: ChangeResult, batch: seq<Change>, z: string)
    requires PassOf(s, before, after, res, batch) && GoodDesired(s.desired) && GoodStore(s, before)
    ensures z in res.zones <==> !SettledAt(s, before, z)
    ensures z !in res.zones ==> At(after, z) == At(before, z)
  {
    hide PassOf, GoodDesired, ReadList, Converged, Settled, Rebuilds, Mine, RewriteMine;
    PassZone(s, before, after, res, batch, z);
    if NeedsSeed(before, z) {
      PassRebuilds(s, before, after, res, batch, z);
    } else {
      if SettledAt(s, before, z) { SettledEdit(s, before, z); }
      PassConverges(s, before, after, res, batch, z);
      ConvergedSettled(s.cfg, s.d, s.scope, s.desired, z, IsRead(s, before, z), before[z].records, after[z].records);
      assert z !in res.zones ==> after[z] == before[z];
    }
  }

  /** A pass over a settled store rewrites no zone. */
  lemma SettledPassNoop(s: Setup, before: Store, after: Store, res: ChangeResult, batch: seq<Change>)
    requires PassOf(s, before, after, res, batch) && GoodDesired(s.desired) && GoodStore(s, before)
    requires SettledStore(s, before)
    ensures after == before && res.zones == []
  {
    hide PassOf, GoodDesired, GoodStore, SettledAt;
    assert res.zones != [] ==> res.zones[0] in res.zones;
    forall z ensures At(after, z) == At(before, z) && z !in res.zones {
      assert SettledAt(s, before, z);
      PassRewrites(s, before, after, res, batch, z);
    }
    forall z ensures (z in after <==> z in before) && (z in after ==> after[z] == before[z]) {
      assert At(after, z) == At(before, z);
    }
  }

  /** Whatever may be pruned in a zone that is read has a supported record type. */
  ghost predicate SupportedStore(s: Setup, store: Store) {
    forall z, r :: IsRead(s, store, z) && r in store[z].records && Prunable(s.d, s.scope, z, r.lab) ==> Supported(r.rtype)
  }

  lemma DesiredType(s: Setup, z: string, recs: seq<Rec>, r: Rec)
    requires GoodDesired(s.desired) && Holds(s.cfg, Ups(s.desired, z), z, recs) && r in recs && !Untouched(Ups(s.desired, z), z)(r)
    ensures Supported(r.rtype)
  {
    hide GoodDesired, RelativeLabel, Ups, SetOf;
    var ups := Ups(s.desired, z);
    UpsGood(s.desired, z);
    var i :| 0 <= i < |ups| && SetOf(ups[i], z)(r);
    FilterMember(SetOf(ups[i], z), recs);
    assert r in Desired(s.cfg, ups[i], z) && IsDesired(ups[i]);
  }

  /** What a pass over stored zones leaves prunable has a supported type if what it found had. */
  lemma PassKeepsSupported(s: Setup, before: Store, after: Store, res: ChangeResult, batch: seq<Change>)
    requires PassOf(s, before, after, res, batch) && GoodDesired(s.desired) && GoodStore(s, before) && SupportedStore(s, before)
    requires forall z :: z in ReadList(s.d, s.scope) && z != "" ==> !NeedsSeed(before, z)
    ensures SupportedStore(s, after)
  {
    forall z, r | IsRead(s, after, z) && r in after[z].records && Prunable(s.d, s.scope, z, r.lab) ensures Supported(r.rtype) {
      hide PassOf, GoodDesired, GoodZone, PlainZone, NulFree, ReadList, Prunable, Supported, Holds, Untouched, Ups;
      assert IsRead(s, before, z);
      PassConverges(s, before, after, res, batch, z);
      var ups := Ups(s.desired, z);
      if Untouched(ups, z)(r) {
        FilterMember(Untouched(ups, z), after[z].records);
        FilterMember(Kept(s.d, s.scope, ups, z, true), before[z].records);
        assert r in Filter(Untouched(ups, z), after[z].records);
      } else {
        DesiredType(s, z, after[z].records, r);
      }
    }
  }

  /** A pass over a settled store emits no delete: its batch holds desired changes only. */
  lemma SettledPassNoDeletes(s: Setup, before: Store, after: Store, res: ChangeResult, batch: seq<Change>, c: Change)
    requires PassOf(s, before, after, res, batch) && GoodDesired(s.desired) && SettledStore(s, before) && SupportedStore(s, before) && c in batch
    ensures c in s.desired
  {
    hide Batch, Prunable, GoodDesired, Holds, Settled, Want, StaleDeletes, ReadList;
    FilterMember(OfZone(c.zone), batch);
    assert c in Mine(s, before, c.zone);
    hide PassOf;
    FilterMember(OfZone(c.zone), s.desired);
    if IsRead(s, before, c.zone) {
      assert SettledAt(s, before, c.zone);
      SettledNoDeletes(s.cfg, s.d, s.scope, s.desired, c.zone, before[c.zone].records);
    }
  }

  /** What a pass leaves unsettled, the next one settles. */
  lemma SecondPassSettles(s: Setup, s0: Store, s1: Store, s2: Store, res1: ChangeResult, res2: ChangeResult, b1: seq<Change>, b2: seq<Change>, z: string)
    requires PassOf(s, s0, s1, res1, b1) && PassOf(s, s1, s2, res2, b2)
    requires GoodDesired(s.desired) && GoodStore(s, s0) && GoodStore(s, s1)
    ensures SettledAt(s, s2, z)
  {
    hide PassOf, GoodDesired, GoodStore, SeedClean, Holds, Ups, SettledZone, Rebuilds;
    PassSettles(s, s1, s2, res2, b2, z);
    if NeedsSeed(s1, z) {
      if NeedsSeed(s0, z) { PassRebuilds(s, s0, s1, res1, b1, z); } else { PassConverges(s, s0, s1, res1, b1, z); }
    }
  }

  /** From any store two passes settle it and a third rewrites nothing. */
  lemma ThirdPassNoop(s: Setup, s0: Store, s1: Store, s2: Store, s3: Store,
                      r1: ChangeResult, r2: ChangeResult, r3: ChangeResult, b1: seq<Change>, b2: seq<Change>, b3: seq<Change>)
    requires GoodDesired(s.desired) && GoodSeeds(s) && GoodStore(s, s0)
    requires PassOf(s, s0, s1, r1, b1) && PassOf(s, s1, s2, r2, b2) && PassOf(s, s2, s3, r3, b3)
    ensures s3 == s2 && r3.zones == []
  {
    hide PassOf, GoodDesired, GoodSeeds, GoodStore, SettledAt;
    PassKeepsGood(s, s0, s1, r1, b1);
    PassKeepsGood(s, s1, s2, r2, b2);
    forall z ensures SettledAt(s, s2, z) { SecondPassSettles(s, s0, s1, s2, r1, r2, b1, b2, z); }
    SettledPassNoop(s, s2, s3, r3, b3);
  }

  /** The second pass rewrites exactly the zones the first had to rebuild from a seed with prunable records. */
  lemma SecondPassRewrites(s: Setup, s0: Store, s1: Store, s2: Store, r1: ChangeResult, r2: ChangeResult, b1: seq<Change>, b2: seq<Change>, z: string)
    requires GoodDesired(s.desired) && GoodSeeds(s) && GoodStore(s, s0)
    requires PassOf(s, s0, s1, r1, b1) && PassOf(s, s1, s2, r2, b2)
    ensures z in r2.zones <==> UncleanRebuild(s, s0, z)
  {
    hide PassOf, GoodDesired, GoodSeeds, GoodStore, SettledAt, UncleanRebuild;
    PassKeepsGood(s, s0, s1, r1, b1);
    PassSettles(s, s0, s1, r1, b1, z);
    PassRewrites(s, s1, s2, r2, b2, z);
  }

  /** The second pass rewrites nothing exactly when no pruned zone had to be rebuilt from a seed with prunable records. */
  lemma SecondPassNoop(s: Setup, s0: Store, s1: Store, s2: Store, r1: ChangeResult, r2: ChangeResult, b1: seq<Change>, b2: seq<Change>)
    requires GoodDesired(s.desired) && GoodSeeds(s) && GoodStore(s, s0)
    requires PassOf(s, s0, s1, r1, b1) && PassOf(s, s1, s2, r2, b2)
    ensures r2.zones == [] <==> forall z :: !UncleanRebuild(s, s0, z)
    ensures r2.zones == [] ==> s2 == s1
  {
    hide PassOf, GoodDesired, GoodSeeds, GoodStore, SettledAt, UncleanRebuild;
    assert r2.zones != [] ==> r2.zones[0] in r2.zones;
    forall z ensures z in r2.zones <==> UncleanRebuild(s, s0, z) { SecondPassRewrites(s, s0, s1, s2, r1, r2, b1, b2, z); }
    if r2.zones == [] {
      PassKeepsGood(s, s0, s1, r1, b1);
      forall z ensures SettledAt(s, s1, z) {
        assert z !in r2.zones;
        PassRewrites(s, s1, s2, r2, b2, z);
      }
      SettledPassNoop(s, s1, s2, r2, b2);
    }
  }

  /** When every pruned zone is stored and readable, the second pass rewrites and deletes nothing. */
  lemma StoredSecondPass(s: Setup, s0: Store, s1: Store, s2: Store, r1: ChangeResult, r2: ChangeResult, b1: seq<Change>, b2: seq<Change>)
    requires GoodDesired(s.desired) && GoodSeeds(s) && GoodStore(s, s0)
    requires PassOf(s, s0, s1, r1, b1) && PassOf(s, s1, s2, r2, b2)
    requires forall z :: z in ReadList(s.d, s.scope) && z != "" ==> !NeedsSeed(s0, z)
    ensures s2 == s1 && r2.zones == []
    ensures SupportedStore(s, s0) ==> forall c :: c in b2 ==> c in s.desired
  {
    hide PassOf, GoodDesired, GoodSeeds, GoodStore, SettledAt, SeedClean, ReadList, SupportedStore, Rebuilds;
    SecondPassNoop(s, s0, s1, s2, r1, r2, b1, b2);
    if SupportedStore(s, s0) {
      PassKeepsSupported(s, s0, s1, r1, b1);
      forall z ensures SettledAt(s, s1, z) { PassSettles(s, s0, s1, r1, b1, z); }
      forall c | c in b2 ensures c in s.desired { SettledPassNoDeletes(s, s1, s2, r2, b2, c); }
    }
  }

  // A store that needs two passes: the zone is missing and its seed holds the glue of a nameserver no longer wanted.

  const STALE_GLUE := Rec("ns2.", TYPE_A, "10.0.0.2", 300)
  const WANTED_GLUE := Rec("ns1.", TYPE_A, "10.0.0.1", 300)

  ghost function GlueSetup(): Setup {
    Setup(WriterConfig(false, 0, 300), (z: string) => [STALE_GLUE], Faults({}, {}), Domains("ex.io", "", ""),
          PruneScope(false, false, false, false, false, true),
          [Change(Upsert, "ex.io", "ns1.ex.io", "A", "10.0.0.1", [], 300)])
  }

  lemma GlueLabels()
    ensures RelativeLabel("ns1.ex.io", "ex.io") == "ns1." && RecordType("A") == Ok(TYPE_A)
    ensures Lower("ns1.") == "ns1." && Lower("ns2.") == "ns2."
  {
    hide RecordType, RelativeLabel;
    assert "ns1.ex.io" == "ns1" + "." + "ex.io";
    RelativeBelow("ns1", "ex.io");
    TypeRoundTrip(TYPE_A);
    assert TypeString(TYPE_A) == "A" && Lower("ns1") + "." == "ns1.";
  }

  lemma GluePrunable()
    ensures Prunable(GlueSetup().d, GlueSetup().scope, "ex.io", "ns2.")
  {
    var d := GlueSetup().d;
    assert PrivateOf(d) == PRIVATE_ZONE && PRIVATE_ZONE[0] == 'c' && "ex.io"[0] == 'e';
    hide PrivateOf, Contains;
    assert IsNameserverGlueLabel("ns2.") by { assert TrimDot(Lower("ns2.")) == "ns2"; }
  }

  lemma GlueEdit()
    ensures ApplyAll(GlueSetup().cfg, "ex.io", [STALE_GLUE], GlueSetup().desired) == Ok(Edit([STALE_GLUE, WANTED_GLUE], true))
  {
    var s := GlueSetup();
    GlueLabels();
    hide RelativeLabel, RecordType, Lower;
    var recs := [STALE_GLUE];
    assert recs[..0] == [] && s.desired[..0] == [];
    assert "ns1."[2] == '1' && "ns2."[2] == '2';
    assert RRset(recs, "ns1.", TYPE_A) == [];
    assert Filter(OutsideSet("ns1.", TYPE_A), recs) == recs;
    assert MakeSet("ns1.", TYPE_A, ["10.0.0.1"], 300) == [WANTED_GLUE];
    assert recs + [WANTED_GLUE] == [STALE_GLUE, WANTED_GLUE];
    assert SetRecordSet(recs, "ns1.", TYPE_A, ["10.0.0.1"], 300) == Edit([STALE_GLUE, WANTED_GLUE], true);
    hide SetRecordSet;
    assert ApplyChange(s.cfg, "ex.io", recs, s.desired[0]) == Ok(Edit([STALE_GLUE, WANTED_GLUE], true));
  }

  lemma GlueWrites()
    ensures var s := GlueSetup();
      WriteZones(s.cfg, s.seed, s.faults, map[], ["ex.io"], s.desired) == Progress(map["ex.io" := Zone([STALE_GLUE, WANTED_GLUE])], Ok(ChangeResult(1, ["ex.io"])))
  {
    var s := GlueSetup();
    GlueEdit();
    GlueLabels();
    hide RecordType, ApplyAll;
    assert s.desired[..0] == [];
    assert Filter(OfZone("ex.io"), s.desired) == s.desired;
    assert FirstUnsupported(s.desired) == None;
    assert IsUpsert(s.desired[0]);
    assert Rewrite(s.cfg, s.seed, s.faults, map[], "ex.io", s.desired) == Ok(Some([STALE_GLUE, WANTED_GLUE]));
    assert Filter(OfZone("ex.io"), s.desired) == s.desired;
    assert WriteZones(s.cfg, s.seed, s.faults, map[], [], s.desired) == Progress(map[], Ok(ChangeResult(0, [])));
    hide Rewrite, Filter;
    assert ["ex.io"][..0] == [];
    assert [] + ["ex.io"] == ["ex.io"];
  }

  /** The pass over the empty store builds the zone from its seed and adds the wanted glue. */
  lemma GluePass()
    ensures PassOf(GlueSetup(), map[], map["ex.io" := Zone([STALE_GLUE, WANTED_GLUE])], ChangeResult(1, ["ex.io"]), GlueSetup().desired)
  {
    var s := GlueSetup();
    GlueEdit();
    GlueLabels();
    hide RecordType, ApplyAll;
    assert s.desired[..0] == [];
    assert FirstUnsupported(s.desired) == None;
    GlueWrites();
    assert ZoneOrder(s.desired) == ["ex.io"];
    hide WriteZones, Filter;
    forall z ensures Filter(OfZone(z), s.desired) == ZoneBatch(s.d, s.scope, s.desired, ReadZones(s.d, s.scope, map[]), z) {
      assert z !in ReadZones(s.d, s.scope, map[]);
      assert Filter(OfZone(z), s.desired) + [] == Filter(OfZone(z), s.desired);
    }
  }

  lemma GlueGood()
    ensures GoodDesired(GlueSetup().desired) && GoodSeeds(GlueSetup()) && GoodStore(GlueSetup(), map[])
  {
    var s := GlueSetup();
    GlueLabels();
    hide RelativeLabel, RecordType, Lower, Prunable;
    assert ReadList(s.d, s.scope) == ["ex.io"];
    assert "ex.io"[4] == 'o' && "ns1."[3] == '.' && "ns2."[3] == '.';
  }

  lemma GlueUnclean()
    ensures UncleanRebuild(GlueSetup(), map[], "ex.io")
  {
    var s := GlueSetup();
    GlueLabels();
    GluePrunable();
    hide RelativeLabel, RecordType, Lower, Prunable;
    var recs := [STALE_GLUE];
    assert s.desired[..0] == [] && recs[..0] == [];
    var ups := Ups(s.desired, "ex.io");
    assert ups == s.desired;
    assert "ns1."[2] == '1' && "ns2."[2] == '2';
    assert !SetOf(ups[0], "ex.io")(STALE_GLUE);
    assert Filter(SetOf(ups[0], "ex.io"), recs) == [] && |Desired(s.cfg, ups[0], "ex.io")| == 1;
    assert STALE_GLUE in s.seed("ex.io") && Untouched(ups, "ex.io")(STALE_GLUE);
    assert s.d.base in ReadList(s.d, s.scope);
  }

  /** Its first pass leaves work, and any second pass rewrites the zone. */
  lemma TwoPassesNeeded(s2: Store, r2: ChangeResult, b2: seq<Change>)
    ensures GoodDesired(GlueSetup().desired) && GoodSeeds(GlueSetup()) && GoodStore(GlueSetup(), map[])
    ensures PassOf(GlueSetup(), map[], map["ex.io" := Zone([STALE_GLUE, WANTED_GLUE])], ChangeResult(1, ["ex.io"]), GlueSetup().desired)
    ensures !SettledAt(GlueSetup(), map["ex.io" := Zone([STALE_GLUE, WANTED_GLUE])], "ex.io")
    ensures PassOf(GlueSetup(), map["ex.io" := Zone([STALE_GLUE, WANTED_GLUE])], s2, r2, b2) ==> "ex.io" in r2.zones
  {
    var s, s1 := GlueSetup(), map["ex.io" := Zone([STALE_GLUE, WANTED_GLUE])];
    GluePass();
    GlueGood();
    GlueUnclean();
    hide PassOf, GoodDesired, GoodSeeds, GoodStore, SettledAt, UncleanRebuild;
    PassSettles(s, map[], s1, ChangeResult(1, ["ex.io"]), s.desired, "ex.io");
    if PassOf(s, s1, s2, r2, b2) {
      SecondPassRewrites(s, map[], s1, s2, ChangeResult(1, ["ex.io"]), r2, s.desired, b2, "ex.io");
    }
  }
}
