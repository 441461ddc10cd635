/**
 Zone objects and the record-set operations on them: an upsert replaces the
 RRset at (label, type), a delete with a value removes that value and a delete
 without one withdraws the set. Labels are compared without regard to case.
 */
module DnsZone {
  import opened Wrappers
  import opened Text
  import opened Filtering
  import opened DnsNaming

  const TYPE_A := 1
  const TYPE_NS := 2
  const TYPE_TXT := 16

  datatype Action = Upsert | UpsertSet | Delete | Other(name: string)

  datatype Change = Change(action: Action, zone: string, name: string, rtype: string, value: string, values: seq<string>, ttl: nat)

  datatype Rec = Rec(lab: string, rtype: int, value: string, ttl: nat)

  datatype Error =
    | UnsupportedType(rtype: string)
    | UnknownAction(action: string)
    | QuotaExceeded(zone: string)
    | Unreachable(zone: string)
    | WriteFailed(zone: string)

  datatype Result<+T> = Ok(value: T) | Err(error: Error)

  function RecordType(t: string): Result<int> {
    var u := Upper(TrimSpace(t));
    if u == "A" then Ok(TYPE_A) else if u == "NS" then Ok(TYPE_NS) else if u == "TXT" then Ok(TYPE_TXT) else Err(UnsupportedType(t))
  }

  function TypeString(rtype: int): string {
    if rtype == TYPE_NS then "NS" else if rtype == TYPE_TXT then "TXT" else "A"
  }

  predicate Supported(rtype: int) { rtype in {TYPE_A, TYPE_NS, TYPE_TXT} }

  /** The textual and numeric forms of a supported type determine each other. */
  lemma TypeRoundTrip(rtype: int)
    ensures RecordType(TypeString(rtype)) == Ok(if Supported(rtype) then rtype else TYPE_A)
  {
    assert Upper(TrimSpace("A")) == "A" && Upper(TrimSpace("NS")) == "NS" && Upper(TrimSpace("TXT")) == "TXT";
  }

  /** The types a change may name, by their numbers in section 3.2.2 of RFC 1035. */
  lemma RecordTypeMeaning(t: string)
    ensures RecordType(t).Ok? <==> Upper(TrimSpace(t)) in {"A", "NS", "TXT"}
    ensures RecordType(t) == Ok(1) <==> Upper(TrimSpace(t)) == "A"
    ensures RecordType(t) == Ok(2) <==> Upper(TrimSpace(t)) == "NS"
    ensures RecordType(t) == Ok(16) <==> Upper(TrimSpace(t)) == "TXT"
  {
  }

  // RRsets.

  function InSet(lab: string, rtype: int): Rec -> bool { (r: Rec) => Lower(r.lab) == Lower(lab) && r.rtype == rtype }

  function OutsideSet(lab: string, rtype: int): Rec -> bool { (r: Rec) => !(Lower(r.lab) == Lower(lab) && r.rtype == rtype) }

  function RRset(recs: seq<Rec>, lab: string, rtype: int): seq<Rec> { Filter(InSet(lab, rtype), recs) }

  function MakeSet(lab: string, rtype: int, values: seq<string>, ttl: nat): seq<Rec> {
    seq(|values|, i requires 0 <= i < |values| => Rec(lab, rtype, values[i], ttl))
  }

  /** A zone's records and whether an edit has altered them. */
  datatype Edit = Edit(records: seq<Rec>, changed: bool)

  function SetRecordSet(recs: seq<Rec>, lab: string, rtype: int, values: seq<string>, ttl: nat): Edit {
    var want := MakeSet(lab, rtype, values, ttl);
    if RRset(recs, lab, rtype) == want then Edit(recs, false)
    else Edit(Filter(OutsideSet(lab, rtype), recs) + want, true)
  }

  function Survives(lab: string, rtype: int, value: string): Rec -> bool {
    (r: Rec) => !(Lower(r.lab) == Lower(lab) && r.rtype == rtype && (value == "" || r.value == value))
  }

  function RemoveRecord(recs: seq<Rec>, lab: string, rtype: int, value: string): Edit {
    var left := Filter(Survives(lab, rtype, value), recs);
    Edit(left, |left| != |recs|)
  }

  // Applying changes.

  datatype WriterConfig = WriterConfig(quotaEnabled: bool, recordsPerHostedZone: nat, ttl: nat)

  predicate RecordSetExists(recs: seq<Rec>, lab: string, rtype: int) {
    exists i :: 0 <= i < |recs| && InSet(lab, rtype)(recs[i])
  }

  predicate OverQuota(cfg: WriterConfig, recs: seq<Rec>, lab: string, rtype: int) {
    cfg.quotaEnabled && !RecordSetExists(recs, lab, rtype) && |recs| >= cfg.recordsPerHostedZone
  }

  function TTLOf(cfg: WriterConfig, c: Change): nat { if c.ttl == 0 then cfg.ttl else c.ttl }

  function ApplyChange(cfg: WriterConfig, zone: string, recs: seq<Rec>, c: Change): Result<Edit> {
    var lab := RelativeLabel(c.name, zone);
    match RecordType(c.rtype)
    case Err(e) => Err(e)
    case Ok(rtype) =>
      match c.action
      case Upsert =>
        if OverQuota(cfg, recs, lab, rtype) then Err(QuotaExceeded(zone)) else Ok(SetRecordSet(recs, lab, rtype, [c.value], TTLOf(cfg, c)))
      case UpsertSet =>
        if OverQuota(cfg, recs, lab, rtype) then Err(QuotaExceeded(zone)) else Ok(SetRecordSet(recs, lab, rtype, c.values, TTLOf(cfg, c)))
      case Delete => Ok(RemoveRecord(recs, lab, rtype, c.value))
      case Other(a) => Err(UnknownAction(a))
  }

  function ApplyAll(cfg: WriterConfig, zone: string, recs: seq<Rec>, changes: seq<Change>): Result<Edit> {
    if changes == [] then Ok(Edit(recs, false))
    else
      match ApplyAll(cfg, zone, recs, changes[..|changes| - 1])
      case Err(e) => Err(e)
      case Ok(edit) =>
        match ApplyChange(cfg, zone, edit.records, changes[|changes| - 1])
        case Err(e) => Err(e)
        case Ok(next) => Ok(Edit(next.records, edit.changed || next.changed))
  }

  predicate IsUpsert(c: Change) { c.action.Upsert? || c.action.UpsertSet? }

  predicate HasUpsert(changes: seq<Change>) { exists i :: 0 <= i < |changes| && IsUpsert(changes[i]) }

  /** A delete removes from the set the records of its value, or all of them without one, and keeps every other record in order. */
  lemma RemovedExactly(cfg: WriterConfig, zone: string, recs: seq<Rec>, c: Change, r: Rec)
    requires c.action == Delete && RecordType(c.rtype).Ok?
    ensures ApplyChange(cfg, zone, recs, c).Ok?
    ensures r in ApplyChange(cfg, zone, recs, c).value.records <==>
      r in recs && !(Lower(r.lab) == Lower(RelativeLabel(c.name, zone)) && r.rtype == RecordType(c.rtype).value && c.value in {"", r.value})
    ensures ApplyChange(cfg, zone, recs, c).value.changed <==> exists x :: x in recs && x !in ApplyChange(cfg, zone, recs, c).value.records
  {
    hide RelativeLabel, Lower, RecordType;
    var survives := Survives(RelativeLabel(c.name, zone), RecordType(c.rtype).value, c.value);
    FilterMember(survives, recs);
    if |Filter(survives, recs)| == |recs| { FilterFull(survives, recs); } else if forall x :: x in recs ==> survives(x) { FilterAll(survives, recs); }
  }

  // The quota.

  lemma {:induction false} SplitCount<T>(p: T -> bool, q: T -> bool, s: seq<T>)
    requires forall x :: q(x) <==> !p(x)
    ensures |Filter(p, s)| + |Filter(q, s)| == |s|
  {
    if s != [] { SplitCount(p, q, s[..|s| - 1]); }
  }

  /** An upsert of one value refuses a new set in a full zone, and otherwise adds at most one record, and none to a set that exists. */
  lemma UpsertQuota(cfg: WriterConfig, zone: string, recs: seq<Rec>, c: Change)
    requires c.action == Upsert && RecordType(c.rtype).Ok? && cfg.quotaEnabled
    ensures var lab, t := RelativeLabel(c.name, zone), RecordType(c.rtype).value;
      ApplyChange(cfg, zone, recs, c).Err? <==>
        cfg.recordsPerHostedZone <= |recs| && forall i :: 0 <= i < |recs| ==> !(Lower(recs[i].lab) == Lower(lab) && recs[i].rtype == t)
    ensures ApplyChange(cfg, zone, recs, c).Ok? && |recs| <= cfg.recordsPerHostedZone ==>
      |ApplyChange(cfg, zone, recs, c).value.records| <= cfg.recordsPerHostedZone
  {
    hide RelativeLabel, Lower, RecordType;
    var lab, t := RelativeLabel(c.name, zone), RecordType(c.rtype).value;
    SplitCount(InSet(lab, t), OutsideSet(lab, t), recs);
    FilterMember(InSet(lab, t), recs);
    if i :| 0 <= i < |recs| && InSet(lab, t)(recs[i]) { assert recs[i] in RRset(recs, lab, t); }
  }

  /** Under a quota, single-value upserts and deletes never take a zone past it. */
  lemma {:induction false} QuotaKept(cfg: WriterConfig, zone: string, recs: seq<Rec>, changes: seq<Change>)
    requires cfg.quotaEnabled && |recs| <= cfg.recordsPerHostedZone && ApplyAll(cfg, zone, recs, changes).Ok?
    requires forall i :: 0 <= i < |changes| ==> changes[i].action == Upsert || changes[i].action == Delete
    ensures |ApplyAll(cfg, zone, recs, changes).value.records| <= cfg.recordsPerHostedZone
  {
    hide RelativeLabel, RecordType, OverQuota, SetRecordSet;
    if changes != [] {
      var c := changes[|changes| - 1];
      QuotaKept(cfg, zone, recs, changes[..|changes| - 1]);
      var mid := ApplyAll(cfg, zone, recs, changes[..|changes| - 1]).value.records;
      if c.action == Upsert { UpsertQuota(cfg, zone, mid, c); } else {
        FilterShorter(Survives(RelativeLabel(c.name, zone), RecordType(c.rtype).value, c.value), mid);
      }
    }
  }

  lemma {:induction false} FilterShorter<T>(p: T -> bool, s: seq<T>)
    ensures |Filter(p, s)| <= |s|
  {
    if s != [] { FilterShorter(p, s[..|s| - 1]); }
  }

  // The object store.

  datatype Object = Corrupt | Zone(records: seq<Rec>)

  type Store = map<string, Object>

  datatype Faults = Faults(unreachable: set<string>, unwritable: set<string>)

  function NeedsSeed(store: Store, zone: string): bool { zone !in store || store[zone].Corrupt? }

  /** The records to store at `zone` after `changes`, or None when the object is not rewritten. */
  function Rewrite(cfg: WriterConfig, seed: string -> seq<Rec>, faults: Faults, store: Store, zone: string, changes: seq<Change>): Result<Option<seq<Rec>>> {
    if zone in faults.unreachable then Err(Unreachable(zone))
    else if NeedsSeed(store, zone) && !HasUpsert(changes) then Ok(None)
    else
      match ApplyAll(cfg, zone, if NeedsSeed(store, zone) then seed(zone) else store[zone].records, changes)
      case Err(e) => Err(e)
      case Ok(edit) =>
        if !edit.changed then Ok(None)
        else if zone in faults.unwritable then Err(WriteFailed(zone))
        else Ok(Some(edit.records))
  }

  function StoreAfter(store: Store, zone: string, written: Option<seq<Rec>>): Store {
    match written case None => store case Some(recs) => store[zone := Zone(recs)]
  }

  /** A missing or corrupt zone is built from its seed only for an upsert. */
  lemma SeededForUpsert(cfg: WriterConfig, seed: string -> seq<Rec>, faults: Faults, store: Store, zone: string, changes: seq<Change>)
    requires (zone !in store || store[zone] == Corrupt) && zone !in faults.unreachable
    ensures (forall i :: 0 <= i < |changes| ==> changes[i].action !in {Upsert, UpsertSet}) ==> Rewrite(cfg, seed, faults, store, zone, changes) == Ok(None)
    ensures Rewrite(cfg, seed, faults, store, zone, changes).Ok? && Rewrite(cfg, seed, faults, store, zone, changes).value.Some? ==>
      ApplyAll(cfg, zone, seed(zone), changes) == Ok(Edit(Rewrite(cfg, seed, faults, store, zone, changes).value.value, true))
  {
    hide ApplyAll;
  }
}
