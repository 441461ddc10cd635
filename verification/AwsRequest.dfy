/**
 Generating requests from a model: one valid value for an operation's input,
 the constraints met on the way, and for each constraint a request that breaks
 it and nothing else.
 */
module AwsRequest {
  import opened Wrappers
  import opened Sorting
  import opened AwsModel
  import opened AwsEdit

  const MAX_STRUCTURE_DEPTH: nat := 8
  const MAX_LIST_REJECTION_LENGTH := 1000

  /** A leaf value and, for each further constraint on it, a value that breaks the constraint. */
  datatype Made = Made(value: Value, breakers: seq<(string, Value)>)

  /** What the generator knows beyond the model: hinted and salted values, and members a request must leave out. */
  datatype Hints = Hints(
    enumHint: seq<PathStep> -> Option<string>,
    leaf: (string, ShapeRef, seq<PathStep>) -> Option<Made>,
    exclusive: (string, string) -> bool)

  // Models the generator works on.

  ghost predicate Resolves(m: Model, s: Shape) {
    match s
    case Structure(_, members, _) => GoodStructure(s) && forall n :: n in members ==> members[n].shape in m.shapes
    case List(member, _, _) => member.shape in m.shapes
    case Map(key, value, _) => key.shape in m.shapes && value.shape in m.shapes
    case _ => true
  }

  ghost predicate WellFormed(m: Model) { forall n :: n in m.shapes ==> Resolves(m, m.shapes[n]) }

  /** Lists and maps nest without a cycle of their own: every shape cycle passes through a structure. */
  ghost predicate Ranked(m: Model, rank: string -> nat) {
    forall n :: n in m.shapes ==>
      match m.shapes[n]
      case List(member, _, _) => rank(member.shape) < rank(n)
      case Map(key, value, _) => rank(key.shape) < rank(n) && rank(value.shape) < rank(n)
      case _ => true
  }

  /** Nothing in the model or the hints stands in the way of a value for the shape. */
  ghost predicate PlainShape(m: Model, level: string -> nat, n: string)
    requires n in m.shapes
  {
    match m.shapes[n]
    case Structure(_, members, _) => level(n) >= 1 && forall k :: k in members ==> !members[k].streaming && level(members[k].shape) < level(n)
    case List(member, min, max) =>
      && !member.streaming && level(member.shape) <= level(n)
      && (max.Some? ==> max.value >= 1 && (min.Some? ==> min.value <= max.value))
    case Map(key, value, _) =>
      && !key.streaming && !value.streaming && level(key.shape) <= level(n) && level(value.shape) <= level(n)
      && key.shape in m.shapes && m.shapes[key.shape].Str?
    case _ => true
  }

  /** Every leaf has a value and structures nest, without recursion, as deep as `level` says. */
  ghost predicate Plain(m: Model, hints: Hints, level: string -> nat) {
    && (forall n :: n in m.shapes ==> PlainShape(m, level, n))
    && (forall n, ref, path :: hints.leaf(n, ref, path).Some?)
    && (forall n, ref, path :: n in m.shapes && m.shapes[n].Str? ==> hints.leaf(n, ref, path).Some? && hints.leaf(n, ref, path).value.value.Text?)
  }

  /** There is depth left for the shape, and no structure being visited can come up again below it. */
  ghost predicate Room(level: string -> nat, visiting: set<string>, depth: nat, name: string, limit: nat) {
    depth + level(name) <= limit && forall v :: v in visiting ==> level(v) > level(name)
  }

  // A value outside an enumeration.

  ghost function Longer(values: seq<string>, n: nat): set<nat> { set i: nat | i < |values| && |values[i]| >= n }

  function ExtendPast(values: seq<string>, candidate: string): (r: string)
    ensures r !in values
    decreases |Longer(values, |candidate|)|
  {
    if candidate in values then
      (LongerShrinks(values, candidate); ExtendPast(values, candidate + "X"))
    else candidate
  }

  lemma LongerShrinks(values: seq<string>, candidate: string)
    requires candidate in values
    ensures |Longer(values, |candidate + "X"|)| < |Longer(values, |candidate|)|
  {
    var i :| 0 <= i < |values| && values[i] == candidate;
    var before, after := Longer(values, |candidate|), Longer(values, |candidate + "X"|);
    assert i in before && i !in after && after <= before;
    Smaller(after, before, i);
  }

  lemma Smaller(a: set<nat>, b: set<nat>, x: nat)
    requires a <= b && x in b && x !in a
    ensures |a| < |b|
  {
    assert a <= b - {x};
    Subset(a, b - {x});
  }

  lemma {:induction false} Subset(a: set<nat>, b: set<nat>)
    requires a <= b
    ensures |a| <= |b|
  {
    if a != {} {
      var x :| x in a;
      Subset(a - {x}, b - {x});
    }
  }

  function InvalidEnumValue(values: seq<string>): (r: string)
    ensures r !in values
  {
    ExtendPast(values, "NotAModelledValue")
  }

  // Sites recorded while a value is built.

  ghost predicate SitesHold(m: Model, name: string, base: seq<PathStep>, v: Value, sites: seq<Site>) {
    forall i :: 0 <= i < |sites| ==> SiteHolds(m, name, base, v, sites[i])
  }

  /** The site belongs to member `n`: it removes the member, or holds of the member's value. */
  ghost predicate OfField(m: Model, name: string, base: seq<PathStep>, fields: map<string, Value>, site: Site, n: string)
    requires IsStructure(m, name)
  {
    && n in fields && n in m.shapes[name].members
    && base + [Field(n)] <= site.path
    && ((n in m.shapes[name].required && site == Site(base + [Field(n)], Required, Remove))
        || SiteHolds(m, m.shapes[name].members[n].shape, base + [Field(n)], fields[n], site))
  }

  ghost predicate OfSomeField(m: Model, name: string, base: seq<PathStep>, fields: map<string, Value>, site: Site)
    requires IsStructure(m, name)
  {
    exists n :: OfField(m, name, base, fields, site, n)
  }

  ghost predicate SitesOfFields(m: Model, name: string, base: seq<PathStep>, fields: map<string, Value>, sites: seq<Site>)
    requires IsStructure(m, name)
  {
    forall i :: 0 <= i < |sites| ==> OfSomeField(m, name, base, fields, sites[i])
  }

  lemma FieldSiteHolds(m: Model, name: string, base: seq<PathStep>, fields: map<string, Value>, site: Site, n: string)
    requires IsStructure(m, name) && GoodStructure(m.shapes[name]) && Conforms(m, name, Fields(fields))
    requires OfField(m, name, base, fields, site, n)
    ensures SiteHolds(m, name, base, Fields(fields), site)
  {
    hide Conforms, SiteHolds, GoodStructure;
    if SiteHolds(m, m.shapes[name].members[n].shape, base + [Field(n)], fields[n], site) {
      LiftMember(m, name, base, fields, n, site);
    } else {
      RequiredSite(m, name, base, fields, n);
    }
  }

  lemma FieldSitesHold(m: Model, name: string, base: seq<PathStep>, fields: map<string, Value>, sites: seq<Site>)
    requires IsStructure(m, name) && GoodStructure(m.shapes[name]) && Conforms(m, name, Fields(fields))
    requires SitesOfFields(m, name, base, fields, sites)
    ensures SitesHold(m, name, base, Fields(fields), sites)
  {
    hide Conforms, SiteHolds, GoodStructure;
    forall i | 0 <= i < |sites| ensures SiteHolds(m, name, base, Fields(fields), sites[i]) {
      assert OfSomeField(m, name, base, fields, sites[i]);
      var n :| OfField(m, name, base, fields, sites[i], n);
      FieldSiteHolds(m, name, base, fields, sites[i], n);
    }
  }

  /** The sites recorded for one member. */
  ghost predicate MemberSites(m: Model, name: string, base: seq<PathStep>, n: string, v: Value, sites: seq<Site>)
    requires IsStructure(m, name)
  {
    forall i :: 0 <= i < |sites| ==> OfField(m, name, base, map[n := v], sites[i], n)
  }

  lemma ValueSites(m: Model, name: string, base: seq<PathStep>, n: string, v: Value, added: seq<Site>)
    requires IsStructure(m, name) && n in m.shapes[name].members
    requires SitesHold(m, m.shapes[name].members[n].shape, base + [Field(n)], v, added)
    ensures MemberSites(m, name, base, n, v, added)
    ensures n in m.shapes[name].required ==> MemberSites(m, name, base, n, v, added + [Site(base + [Field(n)], Required, Remove)])
  {
    hide SiteHolds;
    forall i | 0 <= i < |added| ensures OfField(m, name, base, map[n := v], added[i], n) {
      SitePrefix(m, m.shapes[name].members[n].shape, base + [Field(n)], v, added[i]);
    }
  }

  /** Adding a member with its sites keeps the earlier members' sites. */
  lemma MoreFields(m: Model, name: string, base: seq<PathStep>, fields: map<string, Value>, n: string, v: Value, before: seq<Site>, added: seq<Site>)
    requires IsStructure(m, name) && n !in fields
    requires SitesOfFields(m, name, base, fields, before) && MemberSites(m, name, base, n, v, added)
    ensures SitesOfFields(m, name, base, fields[n := v], before + added)
  {
    var more, all := fields[n := v], before + added;
    forall i | 0 <= i < |all| ensures OfSomeField(m, name, base, more, all[i]) {
      hide SiteHolds;
      if i < |before| {
        assert OfSomeField(m, name, base, fields, before[i]);
        var k :| OfField(m, name, base, fields, before[i], k);
        assert OfField(m, name, base, more, all[i], k);
      } else {
        assert OfField(m, name, base, map[n := v], added[i - |before|], n);
        assert OfField(m, name, base, more, all[i], n);
      }
    }
  }

  lemma SitePrefix(m: Model, name: string, base: seq<PathStep>, v: Value, site: Site)
    requires SiteHolds(m, name, base, v, site)
    ensures base <= site.path
  {
  }

  /** Sites inside a map lie on paths that are not map-free. */
  lemma MapSitesHold(m: Model, name: string, base: seq<PathStep>, v: Value, renamed: seq<Site>, entry: Value, added: seq<Site>, key: string)
    requires name in m.shapes && m.shapes[name].Map? && v == Fields(map[key := entry])
    requires forall i :: 0 <= i < |renamed| ==> renamed[i].path == base + [Field(key)]
    requires SitesHold(m, m.shapes[name].value.shape, base + [Field(key)], entry, added)
    ensures SitesHold(m, name, base, v, renamed + added)
  {
    var all := renamed + added;
    forall i | 0 <= i < |all| ensures SiteHolds(m, name, base, v, all[i]) {
      if i >= |renamed| { SitePrefix(m, m.shapes[name].value.shape, base + [Field(key)], entry, added[i - |renamed|]); }
      Deeper(base, Field(key), all[i].path);
    }
  }

  /** Every required member and enumeration reached through structures and first list items has its site. */
  ghost predicate Covered(m: Model, name: string, base: seq<PathStep>, v: Value, sites: seq<Site>)
    decreases v
  {
    name in m.shapes ==>
      match m.shapes[name]
      case Structure(required, members, _) => v.Fields? ==>
        forall n :: n in v.fields && n in members ==>
          && Omittable(m.shapes[name], n, base, sites)
          && Covered(m, members[n].shape, base + [Field(n)], v.fields[n], sites)
      case List(member, _, _) => v.Items? && v.items != [] ==> Covered(m, member.shape, base + [Index(0)], v.items[0], sites)
      case Str(enum) => enum != [] ==> Site(base, Enum, Replace(Text(InvalidEnumValue(enum)))) in sites
      case _ => true
  }

  /** A required member has a site that omits it, unless it is part of the route. */
  ghost predicate Omittable(s: Shape, n: string, base: seq<PathStep>, sites: seq<Site>)
    requires s.Structure? && n in s.members
  {
    n in s.required && s.members[n].location != "uri" ==> Site(base + [Field(n)], Required, Remove) in sites
  }

  lemma {:induction false} CoveredMore(m: Model, name: string, base: seq<PathStep>, v: Value, sites: seq<Site>, more: seq<Site>)
    requires Covered(m, name, base, v, sites) && sites <= more
    ensures Covered(m, name, base, v, more)
    decreases v
  {
    assert forall s :: s in sites ==> s in more;
    if name in m.shapes {
      match m.shapes[name]
      case Structure(_, members, _) =>
        if v.Fields? {
          forall n | n in v.fields && n in members
            ensures Omittable(m.shapes[name], n, base, more) && Covered(m, members[n].shape, base + [Field(n)], v.fields[n], more)
          {
            assert Omittable(m.shapes[name], n, base, sites);
            CoveredMore(m, members[n].shape, base + [Field(n)], v.fields[n], sites, more);
          }
        }
      case List(member, _, _) => if v.Items? && v.items != [] { CoveredMore(m, member.shape, base + [Index(0)], v.items[0], sites, more); }
      case _ =>
    }
  }

  /** The members generated so far are covered. */
  ghost predicate FieldsCovered(m: Model, name: string, base: seq<PathStep>, fields: map<string, Value>, sites: seq<Site>)
    requires IsStructure(m, name)
  {
    forall n :: n in fields && n in m.shapes[name].members ==>
      Omittable(m.shapes[name], n, base, sites) && Covered(m, m.shapes[name].members[n].shape, base + [Field(n)], fields[n], sites)
  }

  lemma FieldsCoveredMore(m: Model, name: string, base: seq<PathStep>, fields: map<string, Value>, sites: seq<Site>, more: seq<Site>)
    requires IsStructure(m, name) && FieldsCovered(m, name, base, fields, sites) && sites <= more
    ensures FieldsCovered(m, name, base, fields, more)
  {
    assert forall s :: s in sites ==> s in more;
    hide Covered;
    forall n | n in fields && n in m.shapes[name].members
      ensures Omittable(m.shapes[name], n, base, more) && Covered(m, m.shapes[name].members[n].shape, base + [Field(n)], fields[n], more)
    {
      assert Omittable(m.shapes[name], n, base, sites);
      CoveredMore(m, m.shapes[name].members[n].shape, base + [Field(n)], fields[n], sites, more);
    }
  }

  lemma FieldCovered(m: Model, name: string, base: seq<PathStep>, fields: map<string, Value>, n: string, v: Value, sites: seq<Site>)
    requires IsStructure(m, name) && FieldsCovered(m, name, base, fields, sites) && n in m.shapes[name].members
    requires Omittable(m.shapes[name], n, base, sites) && Covered(m, m.shapes[name].members[n].shape, base + [Field(n)], v, sites)
    ensures FieldsCovered(m, name, base, fields[n := v], sites)
  {
    hide Covered, Omittable;
  }

  lemma StructureCovered(m: Model, name: string, base: seq<PathStep>, fields: map<string, Value>, sites: seq<Site>)
    requires IsStructure(m, name) && FieldsCovered(m, name, base, fields, sites)
    ensures Covered(m, name, base, Fields(fields), sites)
  {
  }

  function RenameKeys(sites: seq<Site>, path: seq<PathStep>): (r: seq<Site>)
    ensures |r| == |sites| && forall i :: 0 <= i < |r| ==> r[i].path == path
  {
    seq(|sites|, i requires 0 <= i < |sites| =>
      Site(path, sites[i].constraint, if sites[i].edit.Replace? then Rename(sites[i].edit.value) else sites[i].edit))
  }

  function BreakerSites(path: seq<PathStep>, breakers: seq<(string, Value)>): (r: seq<Site>)
    ensures |r| == |breakers| && forall i :: 0 <= i < |r| ==> r[i].path == path && r[i].constraint.Other? && r[i].edit.Replace?
  {
    seq(|breakers|, i requires 0 <= i < |breakers| => Site(path, Other(breakers[i].0), Replace(breakers[i].1)))
  }

  lemma OtherSitesHold(m: Model, name: string, base: seq<PathStep>, v: Value, sites: seq<Site>)
    requires forall i :: 0 <= i < |sites| ==> sites[i].path == base && sites[i].constraint.Other? && sites[i].edit.Replace?
    ensures SitesHold(m, name, base, v, sites)
  {
  }

  lemma ItemSitesHold(m: Model, name: string, base: seq<PathStep>, items: seq<Value>, sites: seq<Site>)
    requires name in m.shapes && m.shapes[name].List? && items != []
    requires forall j :: 0 <= j < |items| ==> Conforms(m, m.shapes[name].member.shape, items[j])
    requires SitesHold(m, m.shapes[name].member.shape, base + [Index(0)], items[0], sites)
    ensures SitesHold(m, name, base, Items(items), sites)
  {
    hide Conforms, SiteHolds;
    forall i | 0 <= i < |sites| ensures SiteHolds(m, name, base, Items(items), sites[i]) { LiftItem(m, name, base, items, 0, sites[i]); }
  }

  lemma EnumSiteHolds(m: Model, name: string, base: seq<PathStep>, v: Value, text: string)
    requires name in m.shapes && m.shapes[name].Str? && m.shapes[name].enum != [] && text !in m.shapes[name].enum
    ensures SiteHolds(m, name, base, v, Site(base, Enum, Replace(Text(text))))
  {
    EnumBroken(m, name, text);
    assert base[|base|..] == [];
  }

  lemma LeafConforms(m: Model, name: string, v: Value)
    requires name in m.shapes && (m.shapes[name].Leaf? || (m.shapes[name].Str? && (m.shapes[name].enum == [] || (v.Text? && v.text in m.shapes[name].enum))))
    ensures Conforms(m, name, v)
  {
  }

  /** One site for each breaking value, in order. */
  ghost predicate AddsBreakers(before: seq<Site>, after: seq<Site>, path: seq<PathStep>, breakers: seq<(string, Value)>) {
    && |after| == |before| + |breakers| && before <= after
    && forall i :: 0 <= i < |breakers| ==> after[|before| + i] == Site(path, Other(breakers[i].0), Replace(breakers[i].1))
  }

  /** A map of one entry. */
  ghost predicate OneEntry(v: Value) { v.Fields? && exists k, w :: v.fields == map[k := w] }

  lemma IsOneEntry(k: string, w: Value)
    ensures OneEntry(Fields(map[k := w]))
  {
  }

  /** Only required members and those a request need not leave out, and at most one member of a union. */
  ghost predicate Chosen(s: Shape, hints: Hints, name: string, fields: map<string, Value>)
    requires s.Structure?
  {
    (forall n :: n in fields ==> n in s.required || !hints.exclusive(name, n)) && (s.union ==> |fields| <= 1)
  }

  lemma NothingChosen(s: Shape, hints: Hints, name: string)
    requires s.Structure?
    ensures Chosen(s, hints, name, map[])
  {
  }

  lemma ChosenMore(s: Shape, hints: Hints, name: string, fields: map<string, Value>, n: string, v: Value)
    requires s.Structure? && Chosen(s, hints, name, fields) && (n in s.required || !hints.exclusive(name, n)) && (s.union ==> fields == map[])
    ensures Chosen(s, hints, name, fields[n := v])
  {
    if s.union { assert fields[n := v].Keys == {n}; }
  }

  /** One item, or as many as the minimum asks for, and no more than the maximum allows. */
  ghost predicate ListLength(s: Shape, n: nat)
    requires s.List?
  {
    n == (if s.min.Some? && s.min.value > 1 then s.min.value else 1) && (s.max.Some? ==> n <= s.max.value)
  }

  /** The site replaces the list at `path` by one of `n` items. */
  ghost predicate Resizes(site: Site, path: seq<PathStep>, n: int) {
    site.path == path && site.constraint == Other("length") && site.edit.Replace? && site.edit.value.Items? && |site.edit.value.items| == n
  }

  /** One site shortens the list to below a positive minimum, and one replaces it by a list past a maximum under a thousand. */
  ghost predicate BreaksLengths(s: Shape, path: seq<PathStep>, items: seq<Value>, added: seq<Site>)
    requires s.List?
  {
    var short, long := s.min.Some? && s.min.value > 0, s.max.Some? && 0 <= s.max.value < 1000;
    && |added| == (if short then 1 else 0) + (if long then 1 else 0)
    && (short ==> Resizes(added[0], path, s.min.value - 1) && added[0].edit.value.items <= items)
    && (long ==> Resizes(added[|added| - 1], path, s.max.value + 1))
  }

  class Generator {
    const m: Model
    const hints: Hints
    ghost const rank: string -> nat
    ghost const level: string -> nat
    var sites: seq<Site>
    var visiting: set<string>
    /** Some value could not be generated. */
    var failed: bool
    /** A list item after the first could not be generated and was left empty. */
    var gap: bool

    ghost predicate Valid()
      reads this
    {
      WellFormed(m) && Ranked(m, rank) && (gap ==> failed)
    }

    /** Nothing stands in the way of a value for the shape at this depth. */
    ghost predicate Able(seen: set<string>, depth: nat, name: string, limit: nat) {
      Plain(m, hints, level) && Room(level, seen, depth, name, limit)
    }

    lemma AblePlain(seen: set<string>, depth: nat, name: string, limit: nat)
      requires Able(seen, depth, name, limit)
      ensures Plain(m, hints, level)
    {
    }

    lemma AbleStructure(seen: set<string>, depth: nat, name: string)
      requires IsStructure(m, name) && Able(seen, depth, name, MAX_STRUCTURE_DEPTH)
      ensures Able(seen, depth + 1, name, MAX_STRUCTURE_DEPTH + 1)
    {
    }

    lemma AbleVisit(seen: set<string>, depth: nat, name: string)
      requires IsStructure(m, name) && Able(seen, depth, name, MAX_STRUCTURE_DEPTH + 1)
      ensures depth <= MAX_STRUCTURE_DEPTH && name !in seen
    {
      assert PlainShape(m, level, name);
    }

    lemma AbleMember(seen: set<string>, depth: nat, name: string, member: string)
      requires IsStructure(m, name) && member in m.shapes[name].members && Able(seen, depth, name, MAX_STRUCTURE_DEPTH + 1)
      ensures !m.shapes[name].members[member].streaming
      ensures Able(seen + {name}, depth, m.shapes[name].members[member].shape, MAX_STRUCTURE_DEPTH)
    {
      assert PlainShape(m, level, name);
    }

    lemma AbleItem(seen: set<string>, depth: nat, name: string)
      requires name in m.shapes && m.shapes[name].List? && Able(seen, depth, name, MAX_STRUCTURE_DEPTH)
      ensures !m.shapes[name].member.streaming && Able(seen, depth, m.shapes[name].member.shape, MAX_STRUCTURE_DEPTH)
      ensures m.shapes[name].max.Some? ==> m.shapes[name].max.value >= 1 && (m.shapes[name].min.Some? ==> m.shapes[name].min.value <= m.shapes[name].max.value)
    {
      assert PlainShape(m, level, name);
    }

    lemma AbleEntry(seen: set<string>, depth: nat, name: string)
      requires name in m.shapes && m.shapes[name].Map? && Able(seen, depth, name, MAX_STRUCTURE_DEPTH)
      ensures !m.shapes[name].key.streaming && Able(seen, depth, m.shapes[name].key.shape, MAX_STRUCTURE_DEPTH)
      ensures !m.shapes[name].value.streaming && Able(seen, depth, m.shapes[name].value.shape, MAX_STRUCTURE_DEPTH)
      ensures m.shapes[name].key.shape in m.shapes && m.shapes[m.shapes[name].key.shape].Str?
    {
      assert PlainShape(m, level, name);
    }

    constructor (m: Model, hints: Hints, ghost rank: string -> nat, ghost level: string -> nat)
      requires WellFormed(m) && Ranked(m, rank)
      ensures Valid() && this.m == m && this.hints == hints && this.level == level && sites == [] && visiting == {} && !failed && !gap
    {
      this.m, this.hints, this.rank, this.level := m, hints, rank, level;
      sites, visiting, failed, gap := [], {}, false, false;
    }

    /** A value for `ref` at `path`: it conforms, and each site recorded for it breaks it once. */
    method Value(ref: ShapeRef, path: seq<PathStep>, depth: nat) returns (r: Option<Value>)
      requires Valid() && ref.shape in m.shapes && depth <= MAX_STRUCTURE_DEPTH
      modifies this
      ensures Valid() && visiting == old(visiting) && old(sites) <= sites
      ensures (old(failed) ==> failed) && (old(gap) ==> gap)
      ensures r.None? ==> failed
      ensures r.Some? && !gap ==> Conforms(m, ref.shape, r.value)
      ensures r.Some? && !failed ==> SitesHold(m, ref.shape, path, r.value, sites[|old(sites)|..])
      ensures Able(old(visiting), depth, ref.shape, MAX_STRUCTURE_DEPTH) && !ref.streaming ==>
        r.Some? && failed == old(failed) && gap == old(gap) && (m.shapes[ref.shape].Str? ==> r.value.Text?)
      ensures r.Some? ==> Covered(m, ref.shape, path, r.value, sites)
      decreases MAX_STRUCTURE_DEPTH + 1 - depth, 0, rank(ref.shape), 2
    {
      hide Conforms, SitesHold, WellFormed, Ranked, Able, Plain, SitesOfFields, Covered, FieldsCovered;
      r := None;
      if Able(visiting, depth, ref.shape, MAX_STRUCTURE_DEPTH) { AblePlain(visiting, depth, ref.shape, MAX_STRUCTURE_DEPTH); }
      if !ref.streaming {
        match m.shapes[ref.shape]
        case Structure(_, _, _) =>
          if Able(visiting, depth, ref.shape, MAX_STRUCTURE_DEPTH) { AbleStructure(visiting, depth, ref.shape); }
          var fields := StructureValue(ref.shape, path, depth + 1);
          if fields.Some? {
            r := Some(Fields(fields.value));
            StructureCovered(m, ref.shape, path, fields.value, sites);
            if !failed {
              GoodStructureAt(ref.shape);
              FieldSitesHold(m, ref.shape, path, fields.value, sites[|old(sites)|..]);
            }
          }
        case List(_, _, _) => r := ListValue(ref.shape, path, depth);
        case Map(_, _, _) => r := MapValue(ref.shape, path, depth);
        case Str(enum) => if enum == [] { r := LeafValue(ref, path); } else { r := EnumText(ref.shape, path); }
        case Leaf(_) => r := LeafValue(ref, path);
      }
      if r.None? { failed := true; }
    }

    lemma ItemResolves(name: string)
      requires Valid() && name in m.shapes && m.shapes[name].List?
      ensures m.shapes[name].member.shape in m.shapes && rank(m.shapes[name].member.shape) < rank(name)
    {
      assert Resolves(m, m.shapes[name]);
    }

    lemma EntryResolves(name: string)
      requires Valid() && name in m.shapes && m.shapes[name].Map?
      ensures m.shapes[name].key.shape in m.shapes && m.shapes[name].value.shape in m.shapes
      ensures rank(m.shapes[name].key.shape) < rank(name) && rank(m.shapes[name].value.shape) < rank(name)
    {
      assert Resolves(m, m.shapes[name]);
    }

    lemma GoodStructureAt(name: string)
      requires Valid() && IsStructure(m, name)
      ensures GoodStructure(m.shapes[name]) && forall n :: n in m.shapes[name].members ==> m.shapes[name].members[n].shape in m.shapes
    {
      assert Resolves(m, m.shapes[name]);
    }

    method LeafValue(ref: ShapeRef, path: seq<PathStep>) returns (r: Option<Value>)
      requires ref.shape in m.shapes && (m.shapes[ref.shape].Leaf? || m.shapes[ref.shape] == Str([]))
      modifies this`sites
      ensures old(sites) <= sites
      ensures r.Some? ==> Conforms(m, ref.shape, r.value)
      ensures r.Some? ==> SitesHold(m, ref.shape, path, r.value, sites[|old(sites)|..])
      ensures Plain(m, hints, level) ==> r.Some? && (m.shapes[ref.shape].Str? ==> r.value.Text?)
      ensures r.Some? ==> Covered(m, ref.shape, path, r.value, sites)
      ensures match hints.leaf(ref.shape, ref, path)
              case None => r == None && sites == old(sites)
              case Some(made) => r == Some(made.value) && AddsBreakers(old(sites), sites, path, made.breakers)
    {
      hide Conforms, SitesHold;
      var made := hints.leaf(ref.shape, ref, path);
      if made.None? { return None; }
      var added := BreakerSites(path, made.value.breakers);
      sites := sites + added;
      assert sites[|old(sites)|..] == added;
      OtherSitesHold(m, ref.shape, path, made.value.value, added);
      LeafConforms(m, ref.shape, made.value.value);
      return Some(made.value.value);
    }

    /** The hinted member of an enumeration, or its first. */
    method EnumText(name: string, path: seq<PathStep>) returns (r: Option<Value>)
      requires name in m.shapes && m.shapes[name].Str? && m.shapes[name].enum != []
      modifies this`sites
      ensures old(sites) <= sites
      ensures r.Some? && r.value.Text? && Conforms(m, name, r.value) && SitesHold(m, name, path, r.value, sites[|old(sites)|..])
      ensures Covered(m, name, path, r.value, sites)
      ensures var hint := hints.enumHint(path); r.value.text == if hint.Some? && hint.value in m.shapes[name].enum then hint.value else m.shapes[name].enum[0]
    {
      hide Conforms, SiteHolds;
      var enum := m.shapes[name].enum;
      var site := Site(path, Enum, Replace(Text(InvalidEnumValue(enum))));
      sites := sites + [site];
      assert sites[|old(sites)|..] == [site];
      var hint := hints.enumHint(path);
      var text := if hint.Some? && hint.value in enum then hint.value else enum[0];
      r := Some(Text(text));
      LeafConforms(m, name, Text(text));
      EnumSiteHolds(m, name, path, Text(text), InvalidEnumValue(enum));
    }

    /** A further value, leaving no sites behind. */
    method QuietValue(ref: ShapeRef, depth: nat) returns (r: Option<Value>)
      requires Valid() && ref.shape in m.shapes && depth <= MAX_STRUCTURE_DEPTH
      modifies this
      ensures Valid() && visiting == old(visiting) && sites == old(sites)
      ensures (old(failed) ==> failed) && (old(gap) ==> gap)
      ensures r.None? ==> failed
      ensures r.Some? && !gap ==> Conforms(m, ref.shape, r.value)
      ensures Able(old(visiting), depth, ref.shape, MAX_STRUCTURE_DEPTH) && !ref.streaming ==>
        r.Some? && failed == old(failed) && gap == old(gap)
      decreases MAX_STRUCTURE_DEPTH + 1 - depth, 0, rank(ref.shape), 3
    {
      var count := |sites|;
      r := Value(ref, [], depth);
      sites := sites[..count];
    }

    /** The members of a structure in name order; one that cannot be generated is left out unless it is required. */
    method StructureValue(name: string, path: seq<PathStep>, depth: nat) returns (r: Option<map<string, Value>>)
      requires Valid() && IsStructure(m, name) && depth <= MAX_STRUCTURE_DEPTH + 1
      modifies this
      ensures Valid() && visiting == old(visiting) && old(sites) <= sites
      ensures (old(failed) ==> failed) && (old(gap) ==> gap)
      ensures depth <= MAX_STRUCTURE_DEPTH && name !in old(visiting) && r.None? ==> failed
      ensures r.Some? && !gap ==> Conforms(m, name, Fields(r.value))
      ensures r.Some? && !failed ==> SitesOfFields(m, name, path, r.value, sites[|old(sites)|..])
      ensures Able(old(visiting), depth, name, MAX_STRUCTURE_DEPTH + 1) ==>
        r.Some? && failed == old(failed) && gap == old(gap)
      ensures r.Some? ==> FieldsCovered(m, name, path, r.value, sites)
      ensures depth > 8 || name in old(visiting) ==> r.None?
      ensures r.Some? ==> Chosen(m.shapes[name], hints, name, r.value)
      decreases MAX_STRUCTURE_DEPTH + 1 - depth, 2, 0, 0
    {
      hide Conforms, SitesOfFields, WellFormed, Ranked, Able, FieldsCovered;
      if Able(visiting, depth, name, MAX_STRUCTURE_DEPTH + 1) { AbleVisit(visiting, depth, name); }
      if depth > MAX_STRUCTURE_DEPTH || name in visiting { return None; }
      visiting := visiting + {name};
      r := Members(name, path, depth, old(visiting));
      visiting := visiting - {name};
    }

    method Members(name: string, path: seq<PathStep>, depth: nat, ghost seen: set<string>) returns (r: Option<map<string, Value>>)
      requires Valid() && IsStructure(m, name) && depth <= MAX_STRUCTURE_DEPTH && visiting == seen + {name}
      modifies this
      ensures Valid() && visiting == old(visiting) && old(sites) <= sites
      ensures (old(failed) ==> failed) && (old(gap) ==> gap)
      ensures r.None? ==> failed
      ensures r.Some? && !gap ==> Conforms(m, name, Fields(r.value))
      ensures r.Some? && !failed ==> SitesOfFields(m, name, path, r.value, sites[|old(sites)|..])
      ensures Able(seen, depth, name, MAX_STRUCTURE_DEPTH + 1) ==> r.Some? && failed == old(failed) && gap == old(gap)
      ensures r.Some? ==> FieldsCovered(m, name, path, r.value, sites)
      ensures r.Some? ==> Chosen(m.shapes[name], hints, name, r.value)
      decreases MAX_STRUCTURE_DEPTH + 1 - depth, 1, 0, 0
    {
      hide Conforms, SitesOfFields, MemberSites, WellFormed, Ranked, GoodStructure, SortedKeys, Able, Filled, AllConform, FieldsCovered, Chosen, Holding;
      GoodStructureAt(name);
      NothingChosen(m.shapes[name], hints, name);
      var shape := m.shapes[name];
      var names, i, stop, fields: map<string, Value> := SortedKeys(shape.members.Keys), 0, false, map[];
      SortedKeysDistinct(shape.members.Keys);
      NothingFilled(name);
      assert names[..0] == [];
      StartsHolding(name, path);
      while i < |names| && !stop
        invariant 0 <= i <= |names| && Valid() && visiting == old(visiting) && old(sites) <= sites
        invariant (old(failed) ==> failed) && (old(gap) ==> gap)
        invariant Filled(name, fields, names[..i])
        invariant Holding(name, path, fields, |old(sites)|)
        invariant stop ==> shape.union
        invariant shape.union && !stop ==> fields == map[]
        invariant Chosen(shape, hints, name, fields)
        invariant Able(seen, depth, name, MAX_STRUCTURE_DEPTH + 1) ==> failed == old(failed) && gap == old(gap)
      {
        var member := names[i];
        var required := member in shape.required;
        i := i + 1;
        assert names[..i] == names[..i - 1] + [member] && member !in names[..i - 1];
        FilledStep(name, fields, names[..i - 1], member);
        if required || !hints.exclusive(name, member) {
          var v := AddMember(name, member, path, depth, fields, |old(sites)|, seen);
          if v.None? {
            if required { return None; }
          } else {
            FilledAdd(name, fields, names[..i - 1], member, v.value);
            ChosenMore(shape, hints, name, fields, member, v.value);
            fields := fields[member := v.value];
            stop := shape.union;
          }
        }
      }
      HoldingParts(name, path, fields, |old(sites)|);
      if !gap { Finished(name, fields, names, stop, i); }
      return Some(fields);
    }

    /** The fields generated so far conform, their sites from `start` on are theirs, and they are covered. */
    ghost predicate Holding(name: string, path: seq<PathStep>, fields: map<string, Value>, start: nat)
      reads this
      requires IsStructure(m, name) && start <= |sites|
    {
      && (!gap ==> AllConform(name, fields))
      && (!failed ==> SitesOfFields(m, name, path, fields, sites[start..]))
      && FieldsCovered(m, name, path, fields, sites)
    }

    lemma StartsHolding(name: string, path: seq<PathStep>)
      requires IsStructure(m, name)
      ensures Holding(name, path, map[], |sites|)
    {
      hide Conforms, OfSomeField, Covered;
    }

    lemma HoldingParts(name: string, path: seq<PathStep>, fields: map<string, Value>, start: nat)
      requires IsStructure(m, name) && start <= |sites| && Holding(name, path, fields, start)
      ensures !gap ==> AllConform(name, fields)
      ensures !failed ==> SitesOfFields(m, name, path, fields, sites[start..])
      ensures FieldsCovered(m, name, path, fields, sites)
    {
      hide AllConform, SitesOfFields, FieldsCovered;
    }

    /** One more member for the fields generated so far, whose sites start at `start`. */
    method AddMember(name: string, member: string, path: seq<PathStep>, depth: nat, fields: map<string, Value>, ghost start: nat, ghost seen: set<string>)
      returns (v: Option<Value>)
      requires Valid() && IsStructure(m, name) && member in m.shapes[name].members && depth <= MAX_STRUCTURE_DEPTH && visiting == seen + {name}
      requires start <= |sites| && member !in fields && Holding(name, path, fields, start)
      modifies this
      ensures Valid() && visiting == old(visiting) && old(sites) <= sites
      ensures (old(failed) ==> failed) && (old(gap) ==> gap)
      ensures start <= |sites|
      ensures v.None? ==> failed && Holding(name, path, fields, start)
      ensures v.Some? ==> Holding(name, path, fields[member := v.value], start)
      ensures Able(seen, depth, name, MAX_STRUCTURE_DEPTH + 1) ==> v.Some? && failed == old(failed) && gap == old(gap)
      decreases MAX_STRUCTURE_DEPTH + 1 - depth, 0, rank(m.shapes[name].members[member].shape), 6
    {
      hide Conforms, SitesOfFields, MemberSites, WellFormed, Ranked, Able, AllConform, Covered, FieldsCovered, Omittable;
      if Able(seen, depth, name, MAX_STRUCTURE_DEPTH + 1) { AbleMember(seen, depth, name, member); }
      v := MemberValue(name, member, path, depth);
      FieldsCoveredMore(m, name, path, fields, old(sites), sites);
      if v.Some? {
        FieldCovered(m, name, path, fields, member, v.value, sites);
        if !gap { ConformStep(name, fields, member, v.value); }
        if !failed {
          MoreFields(m, name, path, fields, member, v.value, old(sites)[start..], sites[|old(sites)|..]);
          assert sites[start..] == old(sites)[start..] + sites[|old(sites)|..];
        }
      }
    }

    /** One member's value, with a site for omitting it when it is required and not part of the route. */
    method MemberValue(name: string, member: string, path: seq<PathStep>, depth: nat) returns (v: Option<Value>)
      requires Valid() && IsStructure(m, name) && member in m.shapes[name].members && depth <= MAX_STRUCTURE_DEPTH
      modifies this
      ensures Valid() && visiting == old(visiting) && old(sites) <= sites
      ensures (old(failed) ==> failed) && (old(gap) ==> gap)
      ensures v.None? ==> failed
      ensures v.Some? && !gap ==> Conforms(m, m.shapes[name].members[member].shape, v.value)
      ensures v.Some? && !failed ==> MemberSites(m, name, path, member, v.value, sites[|old(sites)|..])
      ensures Able(old(visiting), depth, m.shapes[name].members[member].shape, MAX_STRUCTURE_DEPTH)
              && !m.shapes[name].members[member].streaming ==>
        v.Some? && failed == old(failed) && gap == old(gap)
      ensures v.Some? ==> Omittable(m.shapes[name], member, path, sites)
      ensures v.Some? ==> Covered(m, m.shapes[name].members[member].shape, path + [Field(member)], v.value, sites)
      decreases MAX_STRUCTURE_DEPTH + 1 - depth, 0, rank(m.shapes[name].members[member].shape), 5
    {
      hide Conforms, SitesHold, MemberSites, WellFormed, Ranked, Able, Covered;
      var shape := m.shapes[name];
      GoodStructureAt(name);
      v := Value(shape.members[member], path + [Field(member)], depth);
      if v.None? { return; }
      ghost var added := sites[|old(sites)|..];
      if !failed { ValueSites(m, name, path, member, v.value, added); }
      if member in shape.required && shape.members[member].location != "uri" {
        CoveredMore(m, shape.members[member].shape, path + [Field(member)], v.value, sites, sites + [Site(path + [Field(member)], Required, Remove)]);
        sites := sites + [Site(path + [Field(member)], Required, Remove)];
        assert sites[|old(sites)|..] == added + [Site(path + [Field(member)], Required, Remove)];
      }
    }

    /** `fields` holds members among `names` only, and every required one of them. */
    ghost predicate Filled(name: string, fields: map<string, Value>, names: seq<string>)
      requires IsStructure(m, name)
    {
      && (forall k :: k in fields ==> k in names && k in m.shapes[name].members)
      && (forall k :: k in names && k in m.shapes[name].required ==> k in fields)
    }

    ghost predicate AllConform(name: string, fields: map<string, Value>)
      requires IsStructure(m, name)
    {
      forall k :: k in fields && k in m.shapes[name].members ==> Conforms(m, m.shapes[name].members[k].shape, fields[k])
    }

    lemma FilledStep(name: string, fields: map<string, Value>, names: seq<string>, member: string)
      requires IsStructure(m, name) && Filled(name, fields, names) && member !in names
      ensures member !in fields
      ensures member !in m.shapes[name].required ==> Filled(name, fields, names + [member])
    {
    }

    lemma FilledAdd(name: string, fields: map<string, Value>, names: seq<string>, member: string, v: Value)
      requires IsStructure(m, name) && Filled(name, fields, names) && member in m.shapes[name].members
      ensures Filled(name, fields[member := v], names + [member])
    {
    }

    lemma ConformStep(name: string, fields: map<string, Value>, member: string, v: Value)
      requires IsStructure(m, name) && member in m.shapes[name].members && AllConform(name, fields)
      requires Conforms(m, m.shapes[name].members[member].shape, v)
      ensures AllConform(name, fields[member := v])
    {
    }

    lemma NothingFilled(name: string)
      requires IsStructure(m, name)
      ensures Filled(name, map[], [])
    {
    }

    lemma Finished(name: string, fields: map<string, Value>, names: seq<string>, stop: bool, i: nat)
      requires Valid() && IsStructure(m, name) && i <= |names| && (i < |names| ==> stop)
      requires names == SortedKeys(m.shapes[name].members.Keys) && (stop ==> m.shapes[name].union)
      requires Filled(name, fields, names[..i]) && AllConform(name, fields)
      ensures Conforms(m, name, Fields(fields))
    {
      GoodStructureAt(name);
      hide Conforms, SortedKeys;
      StructureConforms(m, name, fields);
      if !stop { assert names[..i] == names; }
    }

    /** At least one item, and as many as the minimum asks for. */
    method ListValue(name: string, path: seq<PathStep>, depth: nat) returns (r: Option<Value>)
      requires Valid() && name in m.shapes && m.shapes[name].List? && depth <= MAX_STRUCTURE_DEPTH
      modifies this
      ensures Valid() && visiting == old(visiting) && old(sites) <= sites
      ensures (old(failed) ==> failed) && (old(gap) ==> gap)
      ensures r.Some? && !gap ==> Conforms(m, name, r.value)
      ensures r.Some? && !failed ==> SitesHold(m, name, path, r.value, sites[|old(sites)|..])
      ensures Able(old(visiting), depth, name, MAX_STRUCTURE_DEPTH) ==>
        r.Some? && failed == old(failed) && gap == old(gap)
      ensures r.Some? ==> Covered(m, name, path, r.value, sites)
      ensures r.Some? ==> r.value.Items? && ListLength(m.shapes[name], |r.value.items|)
      decreases MAX_STRUCTURE_DEPTH + 1 - depth, 0, rank(name), 1
    {
      hide Conforms, SitesHold, Able, Covered, WellFormed, Ranked, BreaksLengths;
      var shape := m.shapes[name];
      ItemResolves(name);
      if Able(visiting, depth, name, MAX_STRUCTURE_DEPTH) { AbleItem(visiting, depth, name); }
      var element := Value(shape.member, path + [Index(0)], depth);
      if element.None? { return None; }
      ghost var added := sites[|old(sites)|..];
      var count: nat := if shape.min.Some? && shape.min.value > 1 then shape.min.value else 1;
      if shape.max.Some? && count > shape.max.value { return None; }
      var items := MoreItems(shape.member, [element.value], count - 1, depth);
      ghost var clean, whole := !failed, !gap;
      var lengths := LengthSites(name, path, items, depth);
      CoveredMore(m, shape.member.shape, path + [Index(0)], element.value, sites, sites + lengths);
      sites := sites + lengths;
      r := Some(Items(items));
      ListCovered(m, name, path, items, sites);
      if whole { ListConforms(m, name, items); }
      if clean {
        ItemSitesHold(m, name, path, items, added);
        OtherSitesHold(m, name, path, r.value, lengths);
        JoinSites(m, name, path, r.value, added, lengths);
        assert sites[|old(sites)|..] == added + lengths;
      }
    }

    method MoreItems(ref: ShapeRef, first: seq<Value>, more: nat, depth: nat) returns (items: seq<Value>)
      requires Valid() && ref.shape in m.shapes && depth <= MAX_STRUCTURE_DEPTH
      requires gap || forall i :: 0 <= i < |first| ==> Conforms(m, ref.shape, first[i])
      modifies this
      ensures Valid() && visiting == old(visiting) && sites == old(sites)
      ensures (old(failed) ==> failed) && (old(gap) ==> gap)
      ensures |items| == |first| + more && first <= items
      ensures gap || forall i :: 0 <= i < |items| ==> Conforms(m, ref.shape, items[i])
      ensures Able(old(visiting), depth, ref.shape, MAX_STRUCTURE_DEPTH) && !ref.streaming ==>
        failed == old(failed) && gap == old(gap)
      decreases MAX_STRUCTURE_DEPTH + 1 - depth, 0, rank(ref.shape), 4
    {
      hide Conforms, WellFormed, Ranked, Able;
      items := first;
      for i := 0 to more
        invariant Valid() && visiting == old(visiting) && sites == old(sites)
        invariant (old(failed) ==> failed) && (old(gap) ==> gap)
        invariant |items| == |first| + i && first <= items
        invariant gap || forall j :: 0 <= j < |items| ==> Conforms(m, ref.shape, items[j])
        invariant Able(old(visiting), depth, ref.shape, MAX_STRUCTURE_DEPTH) && !ref.streaming ==>
          failed == old(failed) && gap == old(gap)
      {
        var v := QuietValue(ref, depth);
        if v.None? { gap := true; }
        items := items + [if v.Some? then v.value else Null];
      }
    }

    /** Lists one item short of the minimum and one item past the maximum. */
    method LengthSites(name: string, path: seq<PathStep>, items: seq<Value>, depth: nat) returns (added: seq<Site>)
      requires Valid() && name in m.shapes && m.shapes[name].List? && depth <= MAX_STRUCTURE_DEPTH
      requires m.shapes[name].min.Some? ==> m.shapes[name].min.value <= |items|
      modifies this
      ensures Valid() && visiting == old(visiting) && sites == old(sites) && failed == old(failed) && gap == old(gap)
      ensures forall i :: 0 <= i < |added| ==> added[i].path == path && added[i].constraint.Other? && added[i].edit.Replace?
      ensures BreaksLengths(m.shapes[name], path, items, added)
      decreases MAX_STRUCTURE_DEPTH + 1 - depth, 0, rank(name), 0
    {
      var shape := m.shapes[name];
      assert Resolves(m, shape);
      added := [];
      if shape.min.Some? && shape.min.value > 0 {
        added := added + [Site(path, Other("length"), Replace(Items(items[..shape.min.value - 1])))];
      }
      if shape.max.Some? && 0 <= shape.max.value < MAX_LIST_REJECTION_LENGTH {
        var before, hole := failed, gap;
        var long := MoreItems(shape.member, [], shape.max.value + 1, depth);
        failed, gap := before, hole;
        added := added + [Site(path, Other("length"), Replace(Items(long)))];
      }
    }

    /** A map of one entry; the key's constraints are broken by renaming the key. */
    method MapValue(name: string, path: seq<PathStep>, depth: nat) returns (r: Option<Value>)
      requires Valid() && name in m.shapes && m.shapes[name].Map? && depth <= MAX_STRUCTURE_DEPTH
      modifies this
      ensures Valid() && visiting == old(visiting) && old(sites) <= sites
      ensures (old(failed) ==> failed) && (old(gap) ==> gap)
      ensures r.Some? && !gap ==> Conforms(m, name, r.value)
      ensures r.Some? && !failed ==> SitesHold(m, name, path, r.value, sites[|old(sites)|..])
      ensures Able(old(visiting), depth, name, MAX_STRUCTURE_DEPTH) ==>
        r.Some? && failed == old(failed) && gap == old(gap)
      ensures r.Some? ==> Covered(m, name, path, r.value, sites)
      ensures r.Some? ==> OneEntry(r.value)
      decreases MAX_STRUCTURE_DEPTH + 1 - depth, 0, rank(name), 1
    {
      hide Conforms, SitesHold, Able, WellFormed, Ranked, Covered, RenameKeys, OneEntry;
      var shape, start := m.shapes[name], |sites|;
      EntryResolves(name);
      if Able(visiting, depth, name, MAX_STRUCTURE_DEPTH) { AbleEntry(visiting, depth, name); }
      var key := Value(shape.key, path + [Field("{key}")], depth);
      if key.None? || !key.value.Text? {
        sites := sites[..start];
        return None;
      }
      var entry := path + [Field(key.value.text)];
      var renamed := RenameKeys(sites[start..], entry);
      sites := sites[..start] + renamed;
      ghost var before := sites;
      var v := Value(shape.value, entry, depth);
      if v.None? { return None; }
      r := Some(Fields(map[key.value.text := v.value]));
      IsOneEntry(key.value.text, v.value);
      MapCovered(m, name, path, r.value, sites);
      if !gap { MapConforms(m, name, key.value.text, v.value); }
      if !failed {
        assert sites[start..] == renamed + sites[|before|..];
        MapSitesHold(m, name, path, r.value, renamed, v.value, sites[|before|..], key.value.text);
      }
    }
  }

  lemma MapCovered(m: Model, name: string, base: seq<PathStep>, v: Value, sites: seq<Site>)
    requires name in m.shapes && m.shapes[name].Map?
    ensures Covered(m, name, base, v, sites)
  {
  }

  lemma ListCovered(m: Model, name: string, base: seq<PathStep>, items: seq<Value>, sites: seq<Site>)
    requires name in m.shapes && m.shapes[name].List? && items != []
    requires Covered(m, m.shapes[name].member.shape, base + [Index(0)], items[0], sites)
    ensures Covered(m, name, base, Items(items), sites)
  {
  }

  lemma JoinSites(m: Model, name: string, base: seq<PathStep>, v: Value, a: seq<Site>, b: seq<Site>)
    requires SitesHold(m, name, base, v, a) && SitesHold(m, name, base, v, b)
    ensures SitesHold(m, name, base, v, a + b)
  {
    hide SiteHolds;
  }

  // Plans.

  /** A request: an acceptance case, or a rejection case that breaks the constraint at its site. */
  datatype Case = Case(member: string, site: Option<Site>, path: string, input: map<string, Value>)

  const MAP_KEY_PATH := ".{key}"

  function Kept(input: map<string, Value>, required: seq<string>, member: string): map<string, Value> {
    map k | k in input && (k == member || k in required) :: input[k]
  }

  /** Drops every top-level member but the required ones and `member`. */
  method KeepMembers(input: map<string, Value>, required: seq<string>, member: string) returns (kept: map<string, Value>)
    ensures kept == Kept(input, required, member)
  {
    kept := input;
    var todo := input.Keys;
    while todo != {}
      invariant todo <= input.Keys
      invariant kept == map k | k in input && (k in todo || k == member || k in required) :: input[k]
      decreases |todo|
    {
      var name :| name in todo;
      todo := todo - {name};
      if name != member && name !in required { kept := kept - {name}; }
    }
  }

  method FormatPath(path: seq<PathStep>) returns (text: string)
    ensures text == FormatSteps("$", path)
  {
    text := "$";
    for i := 0 to |path|
      invariant FormatSteps(text, path[i..]) == FormatSteps("$", path)
    {
      assert path[i..][1..] == path[i + 1..];
      match path[i]
      case Field(n) => text := MemberPath(text, n);
      case Index(k) => text := IndexPath(text, k);
    }
  }

  /** An acceptance case conforms; a required or enum rejection on a map-free path has one violation, of its rule and at its path. */
  ghost predicate CaseHolds(m: Model, input: string, c: Case) {
    match c.site
    case None => Conforms(m, input, Fields(c.input))
    case Some(site) =>
      !site.constraint.Other? && !site.edit.Rename? && MapFree(m, input, site.path) ==>
        Violations(m, input, "$", Fields(c.input)) == [Violation(RuleOf(site.constraint), c.path)]
  }

  /**
   What one generation of the input gives: `ok` unless a required member could
   not be generated, `failed` when any value could not, and `gap` when that left
   a list item empty.
   */
  datatype Draft = Draft(ok: bool, failed: bool, gap: bool, value: map<string, Value>, sites: seq<Site>)

  ghost predicate Whole(m: Model, input: string, d: Draft) { d.ok && Conforms(m, input, Fields(d.value)) }

  ghost predicate Clean(m: Model, input: string, d: Draft)
    requires IsStructure(m, input)
  {
    Whole(m, input, d) && SitesOfFields(m, input, [], d.value, d.sites)
  }

  /** A draft conforms unless it failed or has a gap, and each of its sites breaks it once when nothing failed. */
  ghost predicate Sound(m: Model, input: string, d: Draft)
    requires IsStructure(m, input)
  {
    (d.ok && !d.gap ==> Whole(m, input, d)) && (!d.failed ==> Clean(m, input, d))
  }

  /** Generates the input afresh. */
  method Generate(m: Model, input: string, hints: Hints, ghost rank: string -> nat, ghost level: string -> nat) returns (d: Draft)
    requires WellFormed(m) && Ranked(m, rank) && IsStructure(m, input)
    ensures Sound(m, input, d)
    ensures d.ok ==> FieldsCovered(m, input, [], d.value, d.sites) && Chosen(m.shapes[input], hints, input, d.value)
    ensures Plain(m, hints, level) && level(input) <= MAX_STRUCTURE_DEPTH + 1 ==> d.ok && !d.failed
  {
    hide Conforms, SitesOfFields, WellFormed, Ranked, Plain, FieldsCovered;
    var g := new Generator(m, hints, rank, level);
    var fields := g.StructureValue(input, [], 0);
    assert g.sites[0..] == g.sites;
    d := Draft(fields.Some?, g.failed, g.gap, if fields.Some? then fields.value else map[], g.sites);
  }

  /** No salt gives hints that could make a generation fail. */
  ghost predicate AlwaysPlain(m: Model, hints: nat -> Hints, level: string -> nat, input: string) {
    (forall k :: Plain(m, hints(k), level)) && level(input) <= MAX_STRUCTURE_DEPTH + 1
  }

  lemma KeptWhole(m: Model, input: string, d: Draft, required: seq<string>, member: string)
    requires IsStructure(m, input) && Whole(m, input, d) && forall r :: r in m.shapes[input].required ==> r in required
    ensures Conforms(m, input, Fields(Kept(d.value, required, member)))
  {
    hide Conforms;
    StructureConforms(m, input, d.value);
    FewerMembers(m, input, d.value, Kept(d.value, required, member));
  }

  function MemberOf(site: Site, required: seq<string>): string {
    if site.path != [] && site.path[0].Field? && site.path[0].name !in required then site.path[0].name else ""
  }

  /** Breaking one site of a clean draft, with the members not needed left out. */
  lemma BrokenOnce(m: Model, input: string, d: Draft, required: seq<string>, site: Site)
    requires IsStructure(m, input) && GoodStructure(m.shapes[input]) && Clean(m, input, d) && site in d.sites
    requires forall r :: r in m.shapes[input].required ==> r in required
    ensures SiteHolds(m, input, [], Fields(Kept(d.value, required, MemberOf(site, required))), site)
  {
    hide Conforms, SiteHolds, GoodStructure;
    var kept := Kept(d.value, required, MemberOf(site, required));
    KeptWhole(m, input, d, required, MemberOf(site, required));
    var i :| 0 <= i < |d.sites| && d.sites[i] == site;
    assert OfSomeField(m, input, [], d.value, d.sites[i]);
    var n :| OfField(m, input, [], d.value, site, n);
    assert [] + [Field(n)] == [Field(n)] && site.path[0] == Field(n);
    assert n in kept && kept[n] == d.value[n];
    FieldSiteHolds(m, input, [], kept, site, n);
  }

  // Cases from drafts.

  function AcceptanceCase(d: Draft, required: seq<string>, member: string): Case {
    Case(member, None, if member == "" then "$" else MemberPath("$", member), Kept(d.value, required, member))
  }

  function CasePath(site: Site): string {
    if site.edit.Rename? && site.path != [] then FormatSteps("$", site.path[..|site.path| - 1]) + MAP_KEY_PATH else FormatSteps("$", site.path)
  }

  /** The input with site `i` broken, or None when the site leads nowhere. */
  function RejectionCase(d: Draft, i: nat, required: seq<string>): Option<Case>
    requires i < |d.sites|
  {
    var site := d.sites[i];
    var member := MemberOf(site, required);
    match Edited(Fields(Kept(d.value, required, member)), site.path, site.edit)
    case Some(Fields(broken)) => Some(Case(member, Some(site), CasePath(site), broken))
    case _ => None
  }

  lemma AcceptanceHolds(m: Model, input: string, d: Draft, required: seq<string>, member: string)
    requires IsStructure(m, input) && Sound(m, input, d) && d.ok && !d.gap && forall r :: r in m.shapes[input].required ==> r in required
    ensures CaseHolds(m, input, AcceptanceCase(d, required, member))
  {
    hide Conforms, Clean;
    KeptWhole(m, input, d, required, member);
  }

  lemma RejectionHolds(m: Model, input: string, d: Draft, i: nat, required: seq<string>)
    requires IsStructure(m, input) && GoodStructure(m.shapes[input]) && Sound(m, input, d) && !d.failed && i < |d.sites|
    requires forall r :: r in m.shapes[input].required ==> r in required
    ensures RejectionCase(d, i, required).Some? ==> CaseHolds(m, input, RejectionCase(d, i, required).value)
  {
    hide Conforms, Clean, Edited, FormatSteps, GoodStructure, MapFree, Violations;
    var site := d.sites[i];
    BrokenOnce(m, input, d, required, site);
    assert site.path[0..] == site.path;
  }

  /** Every site of a clean draft can be broken, unless it would rename a key to something that is not text. */
  lemma RejectionExists(m: Model, input: string, d: Draft, i: nat, required: seq<string>)
    requires IsStructure(m, input) && GoodStructure(m.shapes[input]) && Sound(m, input, d) && !d.failed && i < |d.sites|
    requires (forall r :: r in m.shapes[input].required ==> r in required) && Textual(d.sites[i])
    ensures RejectionCase(d, i, required).Some?
  {
    hide Conforms, Edited, FormatSteps, GoodStructure, MapFree, Violations;
    var site := d.sites[i];
    BrokenOnce(m, input, d, required, site);
    assert site.path[0..] == site.path;
    assert OfSomeField(m, input, [], d.value, site);
    EditedInside(Fields(Kept(d.value, required, MemberOf(site, required))), site.path, site.edit);
  }

  /** A draft that failed, has another number of sites than the first, or a key's breaking value that is not text. */
  ghost predicate Spoiled(d: Draft, count: nat) {
    d.failed || |d.sites| != count || exists i :: 0 <= i < |d.sites| && !Textual(d.sites[i])
  }

  lemma RejectionMissing(m: Model, input: string, d: Draft, i: nat, required: seq<string>)
    requires WellFormed(m) && IsStructure(m, input) && Sound(m, input, d) && i < |d.sites| && RejectionCase(d, i, required).None?
    requires forall r :: r in m.shapes[input].required ==> r in required
    ensures Spoiled(d, |d.sites|)
  {
    hide Sound, RejectionCase;
    assert Resolves(m, m.shapes[input]);
    if !d.failed && Textual(d.sites[i]) { RejectionExists(m, input, d, i, required); }
  }

  function GuessableOf(members: seq<string>, guessable: string -> bool): seq<string> {
    if members == [] then []
    else GuessableOf(members[..|members| - 1], guessable) + if guessable(members[|members| - 1]) then [members[|members| - 1]] else []
  }

  /** One case per member, each from a draft of its own. */
  ghost predicate Accepted(cases: seq<Case>, drafts: seq<Draft>, members: seq<string>, required: seq<string>, count: nat) {
    |cases| == |drafts| == |members|
    && forall i :: 0 <= i < |cases| ==> |drafts[i].sites| == count && cases[i] == AcceptanceCase(drafts[i], required, members[i])
  }

  /** One case per site, the i-th from the i-th site of a draft of its own. */
  ghost predicate Rejected(cases: seq<Case>, drafts: seq<Draft>, required: seq<string>, count: nat) {
    |cases| == |drafts| <= count
    && forall i :: 0 <= i < |cases| ==> |drafts[i].sites| == count && Some(cases[i]) == RejectionCase(drafts[i], i, required)
  }

  ghost predicate AllSound(m: Model, input: string, drafts: seq<Draft>)
    requires IsStructure(m, input)
  {
    forall i :: 0 <= i < |drafts| ==> Sound(m, input, drafts[i])
  }

  ghost predicate NoneFailed(drafts: seq<Draft>) { forall i :: 0 <= i < |drafts| ==> drafts[i].ok && !drafts[i].failed }

  /** One acceptance case for the required members and one more for each usable optional member. */
  method AcceptanceCases(m: Model, input: string, hints: nat -> Hints, required: seq<string>, members: seq<string>, guessable: string -> bool,
                         count: nat, ghost rank: string -> nat, ghost level: string -> nat) returns (cases: Option<seq<Case>>, drafts: seq<Draft>)
    requires WellFormed(m) && Ranked(m, rank) && IsStructure(m, input)
    ensures AllSound(m, input, drafts) && (AlwaysPlain(m, hints, level, input) ==> NoneFailed(drafts))
    ensures cases.Some? ==> Accepted(cases.value, drafts, GuessableOf(members, guessable), required, count)
    ensures cases.None? ==> drafts != [] && |drafts[|drafts| - 1].sites| != count
  {
    hide WellFormed, Ranked, Sound, Plain, FieldsCovered, Chosen, Kept, MemberPath;
    var out: seq<Case> := [];
    drafts := [];
    for i := 0 to |members|
      invariant AllSound(m, input, drafts) && (AlwaysPlain(m, hints, level, input) ==> NoneFailed(drafts))
      invariant Accepted(out, drafts, GuessableOf(members[..i], guessable), required, count)
    {
      assert members[..i + 1][..i] == members[..i];
      if !guessable(members[i]) { continue; }
      var d := Generate(m, input, hints(|drafts|), rank, level);
      drafts := drafts + [d];
      if |d.sites| != count { return None, drafts; }
      var kept := KeepMembers(d.value, required, members[i]);
      out := out + [Case(members[i], None, if members[i] == "" then "$" else MemberPath("$", members[i]), kept)];
    }
    assert members[..|members|] == members;
    cases := Some(out);
  }

  /** One rejection case for each site of the first generation. */
  method RejectionCases(m: Model, input: string, hints: nat -> Hints, required: seq<string>, count: nat, start: nat, ghost rank: string -> nat, ghost level: string -> nat)
    returns (cases: Option<seq<Case>>, drafts: seq<Draft>)
    requires WellFormed(m) && Ranked(m, rank) && IsStructure(m, input) && forall r :: r in m.shapes[input].required ==> r in required
    ensures AllSound(m, input, drafts) && (AlwaysPlain(m, hints, level, input) ==> NoneFailed(drafts))
    ensures cases.Some? ==> |drafts| == count && Rejected(cases.value, drafts, required, count)
    ensures cases.None? ==> drafts != [] && Unusable(drafts[|drafts| - 1], required, count) && Spoiled(drafts[|drafts| - 1], count)
  {
    hide WellFormed, Ranked, Sound, Plain, FieldsCovered, Chosen, Kept, Edited, FormatSteps;
    var out: seq<Case> := [];
    drafts := [];
    for i := 0 to count
      invariant |drafts| == i && AllSound(m, input, drafts) && (AlwaysPlain(m, hints, level, input) ==> NoneFailed(drafts))
      invariant Rejected(out, drafts, required, count)
    {
      var d := Generate(m, input, hints(start + i), rank, level);
      drafts := drafts + [d];
      if |d.sites| != count { return None, drafts; }
      var site := d.sites[i];
      var member := MemberOf(site, required);
      var kept := KeepMembers(d.value, required, member);
      var broken := Edited(Fields(kept), site.path, site.edit);
      if broken.None? || !broken.value.Fields? {
        assert RejectionCase(d, i, required).None?;
        RejectionMissing(m, input, d, i, required);
        return None, drafts;
      }
      var path := PathOfCase(site);
      out := out + [Case(member, Some(site), path, broken.value.fields)];
    }
    cases := Some(out);
  }

  /** The draft has another number of sites than the first one, or its site leads nowhere. */
  ghost predicate Unusable(d: Draft, required: seq<string>, count: nat) {
    |d.sites| != count || exists i :: 0 <= i < |d.sites| && RejectionCase(d, i, required).None?
  }

  method PathOfCase(site: Site) returns (path: string)
    ensures path == CasePath(site)
    ensures site.edit.Rename? && site.path != [] ==> |path| >= 6 && path[|path| - 6..] == ".{key}"
  {
    hide FormatSteps;
    if site.edit.Rename? && site.path != [] {
      path := FormatPath(site.path[..|site.path| - 1]);
      path := path + MAP_KEY_PATH;
    } else {
      path := FormatPath(site.path);
    }
  }

  function OptionalOf(names: seq<string>, required: seq<string>): seq<string> {
    if names == [] then []
    else OptionalOf(names[..|names| - 1], required) + if names[|names| - 1] in required then [] else [names[|names| - 1]]
  }

  method Optional(value: map<string, Value>, required: seq<string>) returns (optional: seq<string>)
    ensures optional == OptionalOf(SortedKeys(value.Keys), required)
  {
    hide SortedKeys;
    optional := [];
    var names := SortedKeys(value.Keys);
    for i := 0 to |names|
      invariant optional == OptionalOf(names[..i], required)
    {
      assert names[..i + 1][..i] == names[..i];
      if names[i] !in required { optional := optional + [names[i]]; }
    }
    assert names[..|names|] == names;
  }

  /** The members that acceptance cases are for: none beyond the required ones, then each usable optional one. */
  function CaseMembers(first: Draft, required: seq<string>, guessable: string -> bool): seq<string> {
    GuessableOf([""] + OptionalOf(SortedKeys(first.value.Keys), required), guessable)
  }

  lemma {:induction false} GuessableMember(members: seq<string>, guessable: string -> bool, n: string)
    ensures n in GuessableOf(members, guessable) <==> n in members && guessable(n)
  {
    if members != [] {
      GuessableMember(members[..|members| - 1], guessable, n);
      assert members == members[..|members| - 1] + [members[|members| - 1]];
    }
  }

  lemma {:induction false} OptionalMember(names: seq<string>, required: seq<string>, n: string)
    ensures n in OptionalOf(names, required) <==> n in names && n !in required
  {
    if names != [] {
      OptionalMember(names[..|names| - 1], required, n);
      assert names == names[..|names| - 1] + [names[|names| - 1]];
    }
  }

  /** There is an acceptance case for the required members, and one for each optional member of the first draft that may be guessed. */
  lemma CaseMembersMeaning(first: Draft, required: seq<string>, guessable: string -> bool, n: string)
    ensures n in CaseMembers(first, required, guessable) <==> guessable(n) && (n == "" || (n in first.value && n !in required))
  {
    hide SortedKeys, GuessableOf, OptionalOf;
    OptionalMember(SortedKeys(first.value.Keys), required, n);
    GuessableMember([""] + OptionalOf(SortedKeys(first.value.Keys), required), guessable, n);
  }

  /** An acceptance case carries, of its draft, exactly the required members there are and its own. */
  lemma AcceptanceShape(d: Draft, required: seq<string>, member: string, k: string)
    ensures k in AcceptanceCase(d, required, member).input <==> k in d.value && (k in required || k == member)
    ensures k in AcceptanceCase(d, required, member).input ==> AcceptanceCase(d, required, member).input[k] == d.value[k]
    ensures AcceptanceCase(d, required, member).path == if member == "" then "$" else "$." + member
  {
  }

  /** A rejection case leaves alone every member but the one its site is in, and carries no other optional one. */
  lemma RejectionShape(d: Draft, i: nat, required: seq<string>, k: string)
    requires i < |d.sites| && RejectionCase(d, i, required).Some? && d.sites[i].path != [] && d.sites[i].path[0].Field? && d.sites[i].path[0].name != k
    requires k != "" && (|d.sites[i].path| == 1 ==> !d.sites[i].edit.Rename?)
    ensures k in RejectionCase(d, i, required).value.input <==> k in d.value && k in required
    ensures k in RejectionCase(d, i, required).value.input ==> RejectionCase(d, i, required).value.input[k] == d.value[k]
  {
    var site := d.sites[i];
    var kept := Kept(d.value, required, MemberOf(site, required));
    assert Edited(Fields(kept), site.path, site.edit).Some?;
  }

  /** The plan is the acceptance cases and then the rejection cases of the drafts. */
  ghost predicate Planned(plan: seq<Case>, first: Draft, drafts: seq<Draft>, required: seq<string>, guessable: string -> bool) {
    var members, count := CaseMembers(first, required, guessable), |first.sites|;
    |plan| == |drafts| == |members| + count
    && Accepted(plan[..|members|], drafts[..|members|], members, required, count)
    && Rejected(plan[|members|..], drafts[|members|..], required, count)
  }

  /**
   The plan for one operation, with the drafts it was made from. There is none
   only when the last draft had another number of sites than the first, or a
   site that leads nowhere, which takes a failed draft or a key's breaking value
   that is not text.
   */
  method GenerateRequests(m: Model, input: string, hints: nat -> Hints, conditional: seq<string>, guessable: string -> bool, ghost rank: string -> nat, ghost level: string -> nat)
    returns (plan: Option<seq<Case>>, first: Draft, drafts: seq<Draft>)
    requires WellFormed(m) && Ranked(m, rank) && IsStructure(m, input)
    ensures Sound(m, input, first) && AllSound(m, input, drafts)
    ensures AlwaysPlain(m, hints, level, input) ==> first.ok && NoneFailed(drafts)
    ensures !first.ok ==> plan == Some([])
    ensures first.ok && plan.Some? ==> Planned(plan.value, first, drafts, m.shapes[input].required + conditional, guessable)
    ensures plan.None? ==> drafts != [] && Unusable(drafts[|drafts| - 1], m.shapes[input].required + conditional, |first.sites|)
    ensures (forall i :: 0 <= i < |drafts| ==> !Spoiled(drafts[i], |first.sites|)) ==> plan.Some?
  {
    hide WellFormed, Ranked, Sound, AlwaysPlain, AllSound, NoneFailed, Planned, Unusable, Spoiled;
    first := Generate(m, input, hints(0), rank, level);
    if AlwaysPlain(m, hints, level, input) { PlainAt(m, hints, level, input, 0); }
    if !first.ok {
      NoDrafts(m, input);
      return Some([]), first, [];
    }
    plan, drafts := MakePlan(m, input, hints, m.shapes[input].required + conditional, guessable, first, rank, level);
  }

  method MakePlan(m: Model, input: string, hints: nat -> Hints, required: seq<string>, guessable: string -> bool, first: Draft, ghost rank: string -> nat, ghost level: string -> nat)
    returns (plan: Option<seq<Case>>, drafts: seq<Draft>)
    requires WellFormed(m) && Ranked(m, rank) && IsStructure(m, input) && forall r :: r in m.shapes[input].required ==> r in required
    ensures AllSound(m, input, drafts) && (AlwaysPlain(m, hints, level, input) ==> NoneFailed(drafts))
    ensures plan.Some? ==> Planned(plan.value, first, drafts, required, guessable)
    ensures plan.None? ==> drafts != [] && Unusable(drafts[|drafts| - 1], required, |first.sites|) && Spoiled(drafts[|drafts| - 1], |first.sites|)
  {
    hide WellFormed, Ranked, Sound, AlwaysPlain, SortedKeys, Accepted, Rejected, AllSound, NoneFailed;
    var optional := Optional(first.value, required);
    var accepted, firstDrafts := AcceptanceCases(m, input, hints, required, [""] + optional, guessable, |first.sites|, rank, level);
    if accepted.None? { return None, firstDrafts; }
    var rejected, moreDrafts := RejectionCases(m, input, hints, required, |first.sites|, |firstDrafts|, rank, level);
    drafts := firstDrafts + moreDrafts;
    JoinDrafts(m, input, firstDrafts, moreDrafts);
    if rejected.None? { return None, drafts; }
    JoinPlans(accepted.value, rejected.value, firstDrafts, moreDrafts, first, required, guessable);
    plan := Some(accepted.value + rejected.value);
  }

  lemma NoDrafts(m: Model, input: string)
    requires IsStructure(m, input)
    ensures AllSound(m, input, []) && NoneFailed([])
  {
  }

  lemma JoinDrafts(m: Model, input: string, a: seq<Draft>, b: seq<Draft>)
    requires IsStructure(m, input) && AllSound(m, input, a) && AllSound(m, input, b)
    ensures AllSound(m, input, a + b)
    ensures NoneFailed(a) && NoneFailed(b) ==> NoneFailed(a + b)
  {
    hide Sound;
  }

  lemma JoinPlans(accepted: seq<Case>, rejected: seq<Case>, a: seq<Draft>, b: seq<Draft>, first: Draft, required: seq<string>, guessable: string -> bool)
    requires Accepted(accepted, a, CaseMembers(first, required, guessable), required, |first.sites|)
    requires |b| == |first.sites| && Rejected(rejected, b, required, |first.sites|)
    ensures Planned(accepted + rejected, first, a + b, required, guessable)
  {
    hide CaseMembers, AcceptanceCase, RejectionCase;
    assert (accepted + rejected)[..|a|] == accepted && (accepted + rejected)[|a|..] == rejected;
    assert (a + b)[..|a|] == a && (a + b)[|a|..] == b;
  }

  lemma PlainAt(m: Model, hints: nat -> Hints, level: string -> nat, input: string, k: nat)
    requires AlwaysPlain(m, hints, level, input)
    ensures Plain(m, hints(k), level) && level(input) <= MAX_STRUCTURE_DEPTH + 1
  {
  }

  /**
   Every acceptance case of a plan conforms unless its draft failed or has a gap,
   and every required or enum rejection on a map-free path has exactly one
   violation, of its rule and at its path, unless its draft failed.
   */
  lemma PlanHolds(m: Model, input: string, plan: seq<Case>, first: Draft, drafts: seq<Draft>, conditional: seq<string>, guessable: string -> bool, i: nat)
    requires WellFormed(m) && IsStructure(m, input) && AllSound(m, input, drafts) && i < |plan|
    requires Planned(plan, first, drafts, m.shapes[input].required + conditional, guessable)
    ensures |drafts| == |plan|
    ensures plan[i].site.None? <==> i < |CaseMembers(first, m.shapes[input].required + conditional, guessable)|
    ensures (if plan[i].site.None? then drafts[i].ok && !drafts[i].gap else !drafts[i].failed) ==> CaseHolds(m, input, plan[i])
  {
    hide Sound, CaseHolds, CaseMembers, GoodStructure, Edited, FormatSteps;
    var required := m.shapes[input].required + conditional;
    var n := |CaseMembers(first, required, guessable)|;
    assert Resolves(m, m.shapes[input]);
    if i < n {
      assert plan[..n][i] == plan[i] && drafts[..n][i] == drafts[i];
      if drafts[i].ok && !drafts[i].gap { AcceptanceHolds(m, input, drafts[i], required, CaseMembers(first, required, guessable)[i]); }
    } else {
      assert plan[n..][i - n] == plan[i] && drafts[n..][i - n] == drafts[i];
      if !drafts[i].failed { RejectionHolds(m, input, drafts[i], i - n, required); }
    }
  }
}
