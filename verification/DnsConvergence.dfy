/**
 What a reconcile pass achieves: each desired RRset holds exactly its desired
 values, stale prunable records are gone, everything else is as it was, and a
 further pass changes nothing.
 */
module DnsConvergence {
  import opened Text
  import opened Filtering
  import opened DnsNaming
  import opened DnsZone
  import opened DnsWriter
  import opened DnsReconcile

  // One record-set operation and the records it does not touch.

  lemma SetKeepsOthers(p: Rec -> bool, recs: seq<Rec>, lab: string, rtype: int, values: seq<string>, ttl: nat)
    requires forall r :: p(r) ==> !InSet(lab, rtype)(r)
    ensures Filter(p, SetRecordSet(recs, lab, rtype, values, ttl).records) == Filter(p, recs)
  {
    var want := MakeSet(lab, rtype, values, ttl);
    if RRset(recs, lab, rtype) != want {
      FilterAppend(p, Filter(OutsideSet(lab, rtype), recs), want);
      FilterAbsorb(p, OutsideSet(lab, rtype), recs);
      forall r | r in want ensures !p(r) { assert InSet(lab, rtype)(r); }
      FilterNone(p, want);
    }
  }

  lemma SetSets(recs: seq<Rec>, lab: string, rtype: int, values: seq<string>, ttl: nat)
    ensures RRset(SetRecordSet(recs, lab, rtype, values, ttl).records, lab, rtype) == MakeSet(lab, rtype, values, ttl)
  {
    hide Lower, Filter;
    var want := MakeSet(lab, rtype, values, ttl);
    if RRset(recs, lab, rtype) != want {
      var others := Filter(OutsideSet(lab, rtype), recs);
      FilterAppend(InSet(lab, rtype), others, want);
      FilterMember(OutsideSet(lab, rtype), recs);
      FilterNone(InSet(lab, rtype), others);
      FilterAll(InSet(lab, rtype), want);
    }
  }

  lemma {:induction false} ApplyAllAppend(cfg: WriterConfig, zone: string, recs: seq<Rec>, a: seq<Change>, b: seq<Change>)
    requires ApplyAll(cfg, zone, recs, a).Ok?
    ensures var first := ApplyAll(cfg, zone, recs, a).value; var second := ApplyAll(cfg, zone, first.records, b);
            ApplyAll(cfg, zone, recs, a + b) == match second case Err(e) => Err(e) case Ok(edit) => Ok(Edit(edit.records, first.changed || edit.changed))
  {
    hide ApplyChange;
    if b == [] {
      assert a + b == a;
    } else {
      ApplyAllAppend(cfg, zone, recs, a, b[..|b| - 1]);
      assert (a + b)[..|a + b| - 1] == a + b[..|b| - 1];
      assert (a + b)[|a + b| - 1] == b[|b| - 1];
    }
  }

  lemma {:induction false} ApplyAllPrefix(cfg: WriterConfig, zone: string, recs: seq<Rec>, a: seq<Change>, b: seq<Change>)
    requires ApplyAll(cfg, zone, recs, a + b).Ok?
    ensures ApplyAll(cfg, zone, recs, a).Ok?
  {
    hide ApplyChange;
    if b == [] {
      assert a + b == a;
    } else {
      assert (a + b)[..|a + b| - 1] == a + b[..|b| - 1];
      ApplyAllPrefix(cfg, zone, recs, a, b[..|b| - 1]);
    }
  }

  // Upserts.

  function LabelIn(c: Change, zone: string): string { RelativeLabel(c.name, zone) }

  function TypeOf(c: Change): int { match RecordType(c.rtype) case Ok(t) => t case Err(_) => TYPE_A }

  function ValuesOf(c: Change): seq<string> { if c.action.Upsert? then [c.value] else c.values }

  ghost predicate IsDesired(c: Change) { IsUpsert(c) && RecordType(c.rtype).Ok? }

  ghost predicate AllDesired(ups: seq<Change>) { forall i :: 0 <= i < |ups| ==> IsDesired(ups[i]) }

  ghost predicate SameSet(c: Change, e: Change, zone: string) {
    Lower(LabelIn(c, zone)) == Lower(LabelIn(e, zone)) && TypeOf(c) == TypeOf(e)
  }

  ghost predicate DistinctSets(ups: seq<Change>, zone: string) {
    forall i, j :: 0 <= i < j < |ups| ==> !SameSet(ups[i], ups[j], zone)
  }

  function SetOf(c: Change, zone: string): Rec -> bool { InSet(LabelIn(c, zone), TypeOf(c)) }

  /** Records in none of the RRsets the upserts name. */
  function Untouched(ups: seq<Change>, zone: string): Rec -> bool {
    (r: Rec) => forall i :: 0 <= i < |ups| ==> !SetOf(ups[i], zone)(r)
  }

  function Desired(cfg: WriterConfig, c: Change, zone: string): seq<Rec> {
    MakeSet(LabelIn(c, zone), TypeOf(c), ValuesOf(c), TTLOf(cfg, c))
  }

  /** Every upsert's RRset holds exactly its values. */
  ghost predicate Holds(cfg: WriterConfig, ups: seq<Change>, zone: string, recs: seq<Rec>) {
    forall i :: 0 <= i < |ups| ==> Filter(SetOf(ups[i], zone), recs) == Desired(cfg, ups[i], zone)
  }

  lemma ApplyUpsert(cfg: WriterConfig, zone: string, recs: seq<Rec>, c: Change)
    requires IsDesired(c) && ApplyChange(cfg, zone, recs, c).Ok?
    ensures ApplyChange(cfg, zone, recs, c).value == SetRecordSet(recs, LabelIn(c, zone), TypeOf(c), ValuesOf(c), TTLOf(cfg, c))
  {
  }

  lemma {:induction false} UpsertsApplied(cfg: WriterConfig, zone: string, recs: seq<Rec>, ups: seq<Change>)
    requires AllDesired(ups) && DistinctSets(ups, zone) && ApplyAll(cfg, zone, recs, ups).Ok?
    ensures Holds(cfg, ups, zone, ApplyAll(cfg, zone, recs, ups).value.records)
    ensures Filter(Untouched(ups, zone), ApplyAll(cfg, zone, recs, ups).value.records) == Filter(Untouched(ups, zone), recs)
  {
    if ups != [] {
      var front, c := ups[..|ups| - 1], ups[|ups| - 1];
      var mid := ApplyAll(cfg, zone, recs, front).value.records;
      UpsertsApplied(cfg, zone, recs, front);
      ApplyUpsert(cfg, zone, mid, c);
      UpsertStep(cfg, zone, recs, mid, ups);
    }
  }

  lemma UpsertStep(cfg: WriterConfig, zone: string, recs: seq<Rec>, mid: seq<Rec>, ups: seq<Change>)
    requires ups != [] && DistinctSets(ups, zone)
    requires Holds(cfg, ups[..|ups| - 1], zone, mid)
    requires Filter(Untouched(ups[..|ups| - 1], zone), mid) == Filter(Untouched(ups[..|ups| - 1], zone), recs)
    ensures var c := ups[|ups| - 1]; var out := SetRecordSet(mid, LabelIn(c, zone), TypeOf(c), ValuesOf(c), TTLOf(cfg, c)).records;
            Holds(cfg, ups, zone, out) && Filter(Untouched(ups, zone), out) == Filter(Untouched(ups, zone), recs)
  {
    hide RelativeLabel, Lower, RecordType, SetRecordSet, Filter, MakeSet;
    var front, c := ups[..|ups| - 1], ups[|ups| - 1];
    var out := SetRecordSet(mid, LabelIn(c, zone), TypeOf(c), ValuesOf(c), TTLOf(cfg, c)).records;
    forall i | 0 <= i < |ups| ensures Filter(SetOf(ups[i], zone), out) == Desired(cfg, ups[i], zone) {
      if i == |front| {
        SetSets(mid, LabelIn(c, zone), TypeOf(c), ValuesOf(c), TTLOf(cfg, c));
      } else {
        assert front[i] == ups[i] && !SameSet(ups[i], c, zone);
        SetKeepsOthers(SetOf(ups[i], zone), mid, LabelIn(c, zone), TypeOf(c), ValuesOf(c), TTLOf(cfg, c));
      }
    }
    var all, some := Untouched(ups, zone), Untouched(front, zone);
    forall r | all(r) ensures some(r) && !SetOf(c, zone)(r) {
      forall i | 0 <= i < |front| ensures !SetOf(front[i], zone)(r) { assert front[i] == ups[i]; }
    }
    SetKeepsOthers(all, mid, LabelIn(c, zone), TypeOf(c), ValuesOf(c), TTLOf(cfg, c));
    FilterAbsorb(all, some, mid);
    FilterAbsorb(all, some, recs);
  }

  // Deletes.

  function Addressed(rtype: int): int { if Supported(rtype) then rtype else TYPE_A }

  /** Records that none of the deletes for `stale` removes. */
  function Spared(stale: seq<Rec>): Rec -> bool {
    (r: Rec) => forall i :: 0 <= i < |stale| ==> Survives(stale[i].lab, Addressed(stale[i].rtype), stale[i].value)(r)
  }

  lemma ApplyDelete(cfg: WriterConfig, zone: string, recs: seq<Rec>, s: Rec)
    requires PlainZone(zone) && CanonicalLabel(s.lab)
    ensures ApplyChange(cfg, zone, recs, DeleteOf(zone, s)) == Ok(RemoveRecord(recs, s.lab, Addressed(s.rtype), s.value))
  {
    hide RelativeLabel, LabelToFQDN, RecordType, TypeString, RemoveRecord;
    LabelRoundTrip(s.lab, zone);
    TypeRoundTrip(s.rtype);
  }

  lemma {:induction false} DeletesApplied(cfg: WriterConfig, zone: string, recs: seq<Rec>, stale: seq<Rec>)
    requires PlainZone(zone) && forall i :: 0 <= i < |stale| ==> CanonicalLabel(stale[i].lab)
    ensures var left := Filter(Spared(stale), recs);
            ApplyAll(cfg, zone, recs, DeletesOf(zone, stale)) == Ok(Edit(left, |left| != |recs|))
  {
    hide ApplyChange, CanonicalLabel, PlainZone;
    if stale == [] {
      FilterAll(Spared(stale), recs);
    } else {
      var front, s := stale[..|stale| - 1], stale[|stale| - 1];
      var mid := Filter(Spared(front), recs);
      DeletesApplied(cfg, zone, recs, front);
      assert DeletesOf(zone, stale)[..|stale| - 1] == DeletesOf(zone, front);
      ApplyDelete(cfg, zone, mid, s);
      SparedStep(recs, stale);
    }
  }

  lemma SparedStep(recs: seq<Rec>, stale: seq<Rec>)
    requires stale != []
    ensures var front, s := stale[..|stale| - 1], stale[|stale| - 1];
            Filter(Survives(s.lab, Addressed(s.rtype), s.value), Filter(Spared(front), recs)) == Filter(Spared(stale), recs)
  {
    var front, s := stale[..|stale| - 1], stale[|stale| - 1];
    var survives := Survives(s.lab, Addressed(s.rtype), s.value);
    FilterBoth(survives, Spared(front), Spared(stale), recs);
  }

  // Keys.

  predicate NulFree(s: string) { '\0' !in s }

  /** RRset keys of zones and labels without NUL determine the zone, the label without case and the textual type. */
  lemma KeyInjective(z1: string, l1: string, t1: int, z2: string, l2: string, t2: int)
    requires NulFree(z1) && NulFree(z2) && NulFree(l1) && NulFree(l2) && RRKey(z1, l1, t1) == RRKey(z2, l2, t2)
    ensures z1 == z2 && Lower(l1) == Lower(l2) && TypeString(t1) == TypeString(t2)
  {
    hide TypeString;
    var r1, r2 := Lower(l1) + "\0" + TypeString(t1), Lower(l2) + "\0" + TypeString(t2);
    assert RRKey(z1, l1, t1) == z1 + ['\0'] + r1 && RRKey(z2, l2, t2) == z2 + ['\0'] + r2;
    FirstSeparator(z1, r1, z2, r2, '\0');
    FirstSeparator(Lower(l1), TypeString(t1), Lower(l2), TypeString(t2), '\0');
  }

  // Well-formed inputs of a pass.

  /** Desired upserts of supported types with canonical labels, no two for one RRset. */
  ghost predicate GoodDesired(desired: seq<Change>) {
    && (forall i :: 0 <= i < |desired| ==> IsDesired(desired[i]) && GoodLabel(desired[i]))
    && (forall i, j :: 0 <= i < j < |desired| && desired[i].zone == desired[j].zone ==> !SameSet(desired[i], desired[j], desired[i].zone))
  }

  ghost predicate GoodLabel(c: Change) {
    NulFree(c.zone) && NulFree(LabelIn(c, c.zone)) && CanonicalLabel(LabelIn(c, c.zone))
  }

  /** Lower-case labels, canonical where they may be pruned. */
  ghost predicate GoodZone(d: Domains, scope: PruneScope, zone: string, recs: seq<Rec>) {
    forall r :: r in recs ==> Lower(r.lab) == r.lab && NulFree(r.lab) && (Prunable(d, scope, zone, r.lab) ==> CanonicalLabel(r.lab))
  }

  function Ups(desired: seq<Change>, zone: string): seq<Change> { Filter(OfZone(zone), desired) }

  lemma UpsGood(desired: seq<Change>, zone: string)
    requires GoodDesired(desired)
    ensures AllDesired(Ups(desired, zone)) && DistinctSets(Ups(desired, zone), zone)
    ensures forall i :: 0 <= i < |Ups(desired, zone)| ==> Ups(desired, zone)[i] in desired && Ups(desired, zone)[i].zone == zone && GoodLabel(Ups(desired, zone)[i])
  {
    hide IsDesired, GoodLabel, SameSet;
    var ups := Ups(desired, zone);
    FilterMember(OfZone(zone), desired);
    forall i | 0 <= i < |ups| ensures IsDesired(ups[i]) && ups[i] in desired && ups[i].zone == zone && GoodLabel(ups[i]) {
      assert ups[i] in ups;
    }
    UpsDistinct(desired, zone);
  }

  lemma {:induction false} UpsDistinct(desired: seq<Change>, zone: string)
    requires forall i, j :: 0 <= i < j < |desired| && desired[i].zone == desired[j].zone ==> !SameSet(desired[i], desired[j], desired[i].zone)
    ensures DistinctSets(Ups(desired, zone), zone)
  {
    hide SameSet;
    if desired != [] {
      var front, c := desired[..|desired| - 1], desired[|desired| - 1];
      UpsDistinct(front, zone);
      FilterMember(OfZone(zone), front);
      var ups := Ups(front, zone);
      if c.zone == zone {
        forall i | 0 <= i < |ups| ensures !SameSet(ups[i], c, zone) {
          assert ups[i] in ups;
          var k :| 0 <= k < |front| && front[k] == ups[i];
          assert desired[k] == ups[i];
        }
      }
    }
  }

  lemma InSetWanted(desired: seq<Change>, zone: string, c: Change, lab: string, rtype: int)
    requires c in desired && c.zone == zone && IsDesired(c)
    requires Lower(lab) == Lower(LabelIn(c, zone)) && TypeString(rtype) == TypeString(TypeOf(c))
    ensures RRKey(zone, lab, rtype) in Want(desired)
  {
    hide RelativeLabel, Lower, TypeString;
    assert KeyOf(c) == RRKey(zone, lab, rtype);
  }

  lemma TouchedWanted(desired: seq<Change>, zone: string, r: Rec)
    requires GoodDesired(desired) && !Untouched(Ups(desired, zone), zone)(r)
    ensures RRKey(zone, r.lab, r.rtype) in Want(desired)
  {
    hide GoodDesired, GoodLabel, RelativeLabel, Lower, RRKey, Want;
    var ups := Ups(desired, zone);
    UpsGood(desired, zone);
    var i :| 0 <= i < |ups| && SetOf(ups[i], zone)(r);
    InSetWanted(desired, zone, ups[i], r.lab, r.rtype);
  }

  lemma KeyOfDesired(c: Change, zone: string, r: Rec)
    requires IsDesired(c) && GoodLabel(c) && NulFree(zone) && NulFree(r.lab) && Supported(r.rtype)
    requires KeyOf(c) == RRKey(zone, r.lab, r.rtype)
    ensures c.zone == zone && SetOf(c, zone)(r)
  {
    hide RelativeLabel, Lower, RRKey, CanonicalLabel;
    KeyInjective(c.zone, LabelIn(c, c.zone), TypeOf(c), zone, r.lab, r.rtype);
  }

  lemma WantedTouched(desired: seq<Change>, zone: string, r: Rec)
    requires GoodDesired(desired) && NulFree(zone) && NulFree(r.lab) && Supported(r.rtype)
    requires RRKey(zone, r.lab, r.rtype) in Want(desired)
    ensures !Untouched(Ups(desired, zone), zone)(r)
  {
    hide IsDesired, GoodLabel, RRKey, KeyOf, SetOf, SameSet;
    var ups := Ups(desired, zone);
    var c :| c in desired && RecordType(c.rtype).Ok? && KeyOf(c) == RRKey(zone, r.lab, r.rtype);
    var k :| 0 <= k < |desired| && desired[k] == c;
    KeyOfDesired(c, zone, r);
    FilterMember(OfZone(zone), desired);
    assert c in ups;
    var i :| 0 <= i < |ups| && ups[i] == c;
    assert SetOf(ups[i], zone)(r);
  }

  /** Records a pass leaves alone: in no desired RRset, and not of a pruned class. */
  function Kept(d: Domains, scope: PruneScope, ups: seq<Change>, zone: string, read: bool): Rec -> bool {
    (r: Rec) => Untouched(ups, zone)(r) && !(read && Prunable(d, scope, zone, r.lab) && Supported(r.rtype))
  }

  lemma StaleMember(d: Domains, scope: PruneScope, desired: seq<Change>, zone: string, recs: seq<Rec>)
    ensures var stale := Filter(Stale(d, scope, Want(desired), zone), recs);
            forall i :: 0 <= i < |stale| ==> stale[i] in recs && Prunable(d, scope, zone, stale[i].lab) && RRKey(zone, stale[i].lab, stale[i].rtype) !in Want(desired)
  {
    hide Prunable, RRKey, Want;
    var stale := Filter(Stale(d, scope, Want(desired), zone), recs);
    FilterMember(Stale(d, scope, Want(desired), zone), recs);
    forall i | 0 <= i < |stale| ensures stale[i] in recs && Stale(d, scope, Want(desired), zone)(stale[i]) { assert stale[i] in stale; }
  }

  lemma StaleCanonical(d: Domains, scope: PruneScope, want: set<string>, zone: string, recs: seq<Rec>)
    requires GoodZone(d, scope, zone, recs)
    ensures forall i :: 0 <= i < |Filter(Stale(d, scope, want, zone), recs)| ==> CanonicalLabel(Filter(Stale(d, scope, want, zone), recs)[i].lab)
  {
    hide Prunable, RRKey, CanonicalLabel;
    var stale := Filter(Stale(d, scope, want, zone), recs);
    FilterMember(Stale(d, scope, want, zone), recs);
    forall i | 0 <= i < |stale| ensures CanonicalLabel(stale[i].lab) { assert stale[i] in stale; }
  }

  /** A delete never reaches a record of a desired RRset. */
  lemma DesiredSpared(d: Domains, scope: PruneScope, desired: seq<Change>, zone: string, recs: seq<Rec>, c: Change, r: Rec)
    requires c in desired && c.zone == zone && IsDesired(c) && SetOf(c, zone)(r)
    ensures Spared(Filter(Stale(d, scope, Want(desired), zone), recs))(r)
  {
    hide RelativeLabel, Lower, RRKey, Prunable, Want, Stale;
    var stale := Filter(Stale(d, scope, Want(desired), zone), recs);
    StaleMember(d, scope, desired, zone, recs);
    forall i | 0 <= i < |stale| ensures Survives(stale[i].lab, Addressed(stale[i].rtype), stale[i].value)(r) {
      if !Survives(stale[i].lab, Addressed(stale[i].rtype), stale[i].value)(r) {
        InSetWanted(desired, zone, c, stale[i].lab, stale[i].rtype);
      }
    }
  }

  /** Outside the desired RRsets, the deletes spare exactly what is not of a pruned class. */
  lemma SparedMeaning(d: Domains, scope: PruneScope, desired: seq<Change>, zone: string, recs: seq<Rec>, r: Rec)
    requires GoodDesired(desired) && NulFree(zone) && GoodZone(d, scope, zone, recs)
    requires r in recs && Untouched(Ups(desired, zone), zone)(r)
    ensures Spared(Filter(Stale(d, scope, Want(desired), zone), recs))(r) <==> !(Prunable(d, scope, zone, r.lab) && Supported(r.rtype))
  {
    hide GoodDesired, Untouched, Lower, RRKey, Prunable, Want, CanonicalLabel;
    var stale := Filter(Stale(d, scope, Want(desired), zone), recs);
    StaleMember(d, scope, desired, zone, recs);
    if !Spared(stale)(r) {
      var i :| 0 <= i < |stale| && !Survives(stale[i].lab, Addressed(stale[i].rtype), stale[i].value)(r);
      assert stale[i].lab == r.lab;
    }
    if Prunable(d, scope, zone, r.lab) && Supported(r.rtype) {
      if RRKey(zone, r.lab, r.rtype) in Want(desired) { WantedTouched(desired, zone, r); }
      FilterMember(Stale(d, scope, Want(desired), zone), recs);
      assert r in stale;
      var i :| 0 <= i < |stale| && stale[i] == r;
      assert !Survives(stale[i].lab, Addressed(stale[i].rtype), stale[i].value)(r);
    }
  }

  /** The outcome of a pass for one zone, from the records it started with. */
  ghost predicate Converged(cfg: WriterConfig, d: Domains, scope: PruneScope, desired: seq<Change>, zone: string, read: bool, before: seq<Rec>, after: seq<Rec>) {
    && Holds(cfg, Ups(desired, zone), zone, after)
    && Filter(Untouched(Ups(desired, zone), zone), after) == Filter(Kept(d, scope, Ups(desired, zone), zone, read), before)
  }

  lemma ReadZoneEdit(cfg: WriterConfig, d: Domains, scope: PruneScope, desired: seq<Change>, zone: string, recs: seq<Rec>)
    requires PlainZone(zone) && GoodZone(d, scope, zone, recs)
    requires ApplyAll(cfg, zone, recs, Ups(desired, zone) + StaleDeletes(d, scope, Want(desired), zone, recs)).Ok?
    ensures ApplyAll(cfg, zone, recs, Ups(desired, zone)).Ok?
    ensures ApplyAll(cfg, zone, recs, Ups(desired, zone) + StaleDeletes(d, scope, Want(desired), zone, recs)).value.records
         == Filter(Spared(Filter(Stale(d, scope, Want(desired), zone), recs)), ApplyAll(cfg, zone, recs, Ups(desired, zone)).value.records)
  {
    hide ApplyAll, Prunable, RRKey, Want, PlainZone;
    var stale := Filter(Stale(d, scope, Want(desired), zone), recs);
    StaleCanonical(d, scope, Want(desired), zone, recs);
    ApplyAllPrefix(cfg, zone, recs, Ups(desired, zone), DeletesOf(zone, stale));
    ApplyAllAppend(cfg, zone, recs, Ups(desired, zone), DeletesOf(zone, stale));
    DeletesApplied(cfg, zone, ApplyAll(cfg, zone, recs, Ups(desired, zone)).value.records, stale);
  }

  /** A zone that was read: desired sets exact, stale prunable records gone, the rest as before. */
  lemma ReadZoneConverges(cfg: WriterConfig, d: Domains, scope: PruneScope, desired: seq<Change>, zone: string, recs: seq<Rec>)
    requires GoodDesired(desired) && NulFree(zone) && PlainZone(zone) && GoodZone(d, scope, zone, recs)
    requires ApplyAll(cfg, zone, recs, Ups(desired, zone) + StaleDeletes(d, scope, Want(desired), zone, recs)).Ok?
    ensures Converged(cfg, d, scope, desired, zone, true, recs,
                      ApplyAll(cfg, zone, recs, Ups(desired, zone) + StaleDeletes(d, scope, Want(desired), zone, recs)).value.records)
  {
    hide ApplyAll, Prunable, Want, PlainZone, StaleDeletes, Ups, SetOf, Stale;
    var ups, stale := Ups(desired, zone), Filter(Stale(d, scope, Want(desired), zone), recs);
    ReadZoneEdit(cfg, d, scope, desired, zone, recs);
    var mid := ApplyAll(cfg, zone, recs, ups).value.records;
    UpsGood(desired, zone);
    hide GoodDesired, GoodLabel, IsDesired;
    UpsertsApplied(cfg, zone, recs, ups);
    var out := Filter(Spared(stale), mid);
    forall i | 0 <= i < |ups| ensures Filter(SetOf(ups[i], zone), out) == Desired(cfg, ups[i], zone) {
      forall r | r in mid && SetOf(ups[i], zone)(r) ensures Spared(stale)(r) {
        DesiredSpared(d, scope, desired, zone, recs, ups[i], r);
      }
      FilterAbsorb(SetOf(ups[i], zone), Spared(stale), mid);
    }
    LeftBehind(d, scope, desired, zone, recs, mid);
  }

  lemma LeftBehind(d: Domains, scope: PruneScope, desired: seq<Change>, zone: string, recs: seq<Rec>, mid: seq<Rec>)
    requires GoodDesired(desired) && NulFree(zone) && GoodZone(d, scope, zone, recs)
    requires Filter(Untouched(Ups(desired, zone), zone), mid) == Filter(Untouched(Ups(desired, zone), zone), recs)
    ensures Filter(Untouched(Ups(desired, zone), zone), Filter(Spared(Filter(Stale(d, scope, Want(desired), zone), recs)), mid))
         == Filter(Kept(d, scope, Ups(desired, zone), zone, true), recs)
  {
    hide GoodDesired, GoodZone, Prunable, Want, Ups, SetOf, Stale, Filter, Untouched, Spared;
    var ups, stale := Ups(desired, zone), Filter(Stale(d, scope, Want(desired), zone), recs);
    FilterCommute(Untouched(ups, zone), Spared(stale), mid);
    forall r | r in recs ensures Kept(d, scope, ups, zone, true)(r) <==> Spared(stale)(r) && Untouched(ups, zone)(r) {
      if Untouched(ups, zone)(r) { SparedMeaning(d, scope, desired, zone, recs, r); }
    }
    FilterBoth(Spared(stale), Untouched(ups, zone), Kept(d, scope, ups, zone, true), recs);
  }

  /** A zone that was not read: desired sets exact, every other record as before. */
  lemma UnreadZoneConverges(cfg: WriterConfig, d: Domains, scope: PruneScope, desired: seq<Change>, zone: string, recs: seq<Rec>)
    requires GoodDesired(desired) && ApplyAll(cfg, zone, recs, Ups(desired, zone)).Ok?
    ensures Converged(cfg, d, scope, desired, zone, false, recs, ApplyAll(cfg, zone, recs, Ups(desired, zone)).value.records)
  {
    hide ApplyAll, Prunable, Ups, SetOf, GoodDesired;
    UpsGood(desired, zone);
    UpsertsApplied(cfg, zone, recs, Ups(desired, zone));
    FilterAgree(Untouched(Ups(desired, zone), zone), Kept(d, scope, Ups(desired, zone), zone, false), recs);
  }

  /** An edit that reports no change left the records as they were. */
  lemma {:induction false} UnchangedSame(cfg: WriterConfig, zone: string, recs: seq<Rec>, changes: seq<Change>)
    requires ApplyAll(cfg, zone, recs, changes).Ok? && !ApplyAll(cfg, zone, recs, changes).value.changed
    ensures ApplyAll(cfg, zone, recs, changes).value.records == recs
  {
    if changes != [] {
      UnchangedSame(cfg, zone, recs, changes[..|changes| - 1]);
      hide RelativeLabel, RecordType, OverQuota;
      var c := changes[|changes| - 1];
      if c.action.Delete? {
        FilterFull(Survives(RelativeLabel(c.name, zone), RecordType(c.rtype).value, c.value), recs);
      }
    }
  }

  // Settled zones.

  /** Nothing is left for a pass to do in a zone. */
  ghost predicate Settled(cfg: WriterConfig, d: Domains, scope: PruneScope, desired: seq<Change>, zone: string, read: bool, recs: seq<Rec>) {
    && Holds(cfg, Ups(desired, zone), zone, recs)
    && (read ==> forall r :: r in recs && Untouched(Ups(desired, zone), zone)(r) ==> !(Prunable(d, scope, zone, r.lab) && Supported(r.rtype)))
  }

  /** What a pass converges is settled. */
  lemma ConvergedSettled(cfg: WriterConfig, d: Domains, scope: PruneScope, desired: seq<Change>, zone: string, read: bool, before: seq<Rec>, after: seq<Rec>)
    requires Converged(cfg, d, scope, desired, zone, read, before, after)
    ensures Settled(cfg, d, scope, desired, zone, read, after)
  {
    hide Holds, Ups, Untouched, Prunable;
    var ups := Ups(desired, zone);
    FilterMember(Untouched(ups, zone), after);
    FilterMember(Kept(d, scope, ups, zone, read), before);
    forall r | read && r in after && Untouched(ups, zone)(r) ensures !(Prunable(d, scope, zone, r.lab) && Supported(r.rtype)) {
      assert r in Filter(Untouched(ups, zone), after);
      assert r in Filter(Kept(d, scope, ups, zone, read), before);
    }
  }

  /** Upserts that already hold change nothing; only a quota can refuse them. */
  lemma {:induction false} HoldsNoop(cfg: WriterConfig, zone: string, recs: seq<Rec>, ups: seq<Change>)
    requires AllDesired(ups) && Holds(cfg, ups, zone, recs)
    ensures ApplyAll(cfg, zone, recs, ups).Ok? ==> ApplyAll(cfg, zone, recs, ups).value == Edit(recs, false)
    ensures !cfg.quotaEnabled ==> ApplyAll(cfg, zone, recs, ups).Ok?
  {
    hide RelativeLabel, Lower, RecordType, Filter, MakeSet;
    if ups != [] {
      var front, c := ups[..|ups| - 1], ups[|ups| - 1];
      assert Holds(cfg, front, zone, recs);
      HoldsNoop(cfg, zone, recs, front);
      assert Filter(SetOf(c, zone), recs) == Desired(cfg, c, zone);
      if ApplyChange(cfg, zone, recs, c).Ok? { ApplyUpsert(cfg, zone, recs, c); }
    }
  }

  /** In a settled zone the deletes, if any, are for unsupported types and remove nothing. */
  lemma SettledSpared(cfg: WriterConfig, d: Domains, scope: PruneScope, desired: seq<Change>, zone: string, recs: seq<Rec>, r: Rec)
    requires GoodDesired(desired) && GoodZone(d, scope, zone, recs) && Settled(cfg, d, scope, desired, zone, true, recs) && r in recs
    ensures Spared(Filter(Stale(d, scope, Want(desired), zone), recs))(r)
  {
    hide GoodDesired, Holds, Lower, RelativeLabel, Prunable, Want, CanonicalLabel, Ups, Untouched;
    var stale := Filter(Stale(d, scope, Want(desired), zone), recs);
    StaleMember(d, scope, desired, zone, recs);
    forall i | 0 <= i < |stale| ensures Survives(stale[i].lab, Addressed(stale[i].rtype), stale[i].value)(r) {
      if !Survives(stale[i].lab, Addressed(stale[i].rtype), stale[i].value)(r) {
        assert stale[i].lab == r.lab;
        if !Untouched(Ups(desired, zone), zone)(r) {
          TouchedWanted(desired, zone, r);
        }
      }
    }
  }

  lemma SettledDeletes(cfg: WriterConfig, d: Domains, scope: PruneScope, desired: seq<Change>, zone: string, recs: seq<Rec>)
    requires GoodDesired(desired) && PlainZone(zone) && GoodZone(d, scope, zone, recs) && Settled(cfg, d, scope, desired, zone, true, recs)
    ensures ApplyAll(cfg, zone, recs, StaleDeletes(d, scope, Want(desired), zone, recs)) == Ok(Edit(recs, false))
  {
    hide GoodDesired, Settled, ApplyAll, Prunable, Want, PlainZone;
    var stale := Filter(Stale(d, scope, Want(desired), zone), recs);
    StaleCanonical(d, scope, Want(desired), zone, recs);
    DeletesApplied(cfg, zone, recs, stale);
    forall r | r in recs ensures Spared(stale)(r) { SettledSpared(cfg, d, scope, desired, zone, recs, r); }
    FilterAll(Spared(stale), recs);
  }

  /** A pass over a settled zone rewrites nothing; only a quota can make it fail there. */
  lemma SettledNoop(cfg: WriterConfig, d: Domains, scope: PruneScope, desired: seq<Change>, zone: string, read: bool, recs: seq<Rec>)
    requires GoodDesired(desired) && Settled(cfg, d, scope, desired, zone, read, recs)
    requires read ==> PlainZone(zone) && GoodZone(d, scope, zone, recs)
    ensures var edit := ApplyAll(cfg, zone, recs, Ups(desired, zone) + if read then StaleDeletes(d, scope, Want(desired), zone, recs) else []);
            (edit.Ok? ==> edit.value == Edit(recs, false)) && (!cfg.quotaEnabled ==> edit.Ok?)
  {
    hide GoodDesired, ApplyAll, Prunable, Want, PlainZone, Ups, StaleDeletes, GoodZone, Untouched;
    UpsGood(desired, zone);
    var ups, deletes := Ups(desired, zone), StaleDeletes(d, scope, Want(desired), zone, recs);
    HoldsNoop(cfg, zone, recs, ups);
    if read {
      SettledDeletes(cfg, d, scope, desired, zone, recs);
      if ApplyAll(cfg, zone, recs, ups + deletes).Ok? { ApplyAllPrefix(cfg, zone, recs, ups, deletes); }
      if ApplyAll(cfg, zone, recs, ups).Ok? { ApplyAllAppend(cfg, zone, recs, ups, deletes); }
    } else {
      assert ups + [] == ups;
    }
  }

  /** A settled zone of supported record types emits no delete at all. */
  lemma SettledNoDeletes(cfg: WriterConfig, d: Domains, scope: PruneScope, desired: seq<Change>, zone: string, recs: seq<Rec>)
    requires GoodDesired(desired) && Settled(cfg, d, scope, desired, zone, true, recs)
    requires forall r :: r in recs && Prunable(d, scope, zone, r.lab) ==> Supported(r.rtype)
    ensures StaleDeletes(d, scope, Want(desired), zone, recs) == []
  {
    hide GoodDesired, Holds, Prunable, Want, Ups, Untouched, RRKey;
    forall r | r in recs ensures !Stale(d, scope, Want(desired), zone)(r) {
      if Prunable(d, scope, zone, r.lab) && !Untouched(Ups(desired, zone), zone)(r) { TouchedWanted(desired, zone, r); }
    }
    FilterNone(Stale(d, scope, Want(desired), zone), recs);
  }
}
