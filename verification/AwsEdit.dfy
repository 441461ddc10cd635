/** How one edit to a valid value changes what the validator reports. */
module AwsEdit {
  import opened Wrappers
  import opened Sorting
  import opened AwsModel

  datatype PathStep = Field(name: string) | Index(i: nat)

  datatype Edit = Remove | Replace(value: Value) | Rename(key: Value)

  /** The value with one edit made at `path`, or None when the path does not lead anywhere. */
  function Edited(v: Value, path: seq<PathStep>, e: Edit): Option<Value>
    decreases |path|
  {
    if path == [] then (if e.Replace? then Some(e.value) else None)
    else
      match path[0]
      case Field(n) =>
        if !v.Fields? then None
        else if |path| == 1 && e.Remove? then Some(Fields(v.fields - {n}))
        else if |path| == 1 && e.Rename? then
          if e.key.Text? then Some(Fields(v.fields[e.key.text := Entry(v.fields, n)] - {n})) else None
        else
          (match Edited(Entry(v.fields, n), path[1..], e) case None => None case Some(w) => Some(Fields(v.fields[n := w])))
      case Index(i) =>
        if !v.Items? || i >= |v.items| then None
        else if |path| == 1 && !e.Replace? then Some(Items(v.items[i := if e.Remove? then Null else e.key]))
        else
          (match Edited(v.items[i], path[1..], e) case None => None case Some(w) => Some(Items(v.items[i := w])))
  }

  function Entry(fields: map<string, Value>, n: string): Value { if n in fields then fields[n] else Null }

  function FormatSteps(base: string, path: seq<PathStep>): string
    decreases |path|
  {
    if path == [] then base
    else FormatSteps(match path[0] case Field(n) => MemberPath(base, n) case Index(i) => IndexPath(base, i), path[1..])
  }

  // Conforming values.

  /** The validator has nothing to report. */
  ghost predicate Conforms(m: Model, name: string, v: Value) { forall p :: Violations(m, name, p, v) == [] }

  /** The validator reports exactly one violation, of `rule` and at `path` below wherever the value is. */
  ghost predicate Breaks(m: Model, name: string, v: Value, rule: Rule, path: seq<PathStep>) {
    forall p :: Violations(m, name, p, v) == [Violation(rule, FormatSteps(p, path))]
  }

  ghost predicate IsStructure(m: Model, name: string) { name in m.shapes && m.shapes[name].Structure? }

  /** Required members are distinct members. */
  ghost predicate GoodStructure(s: Shape)
    requires s.Structure?
  {
    && (forall i, j :: 0 <= i < j < |s.required| ==> s.required[i] != s.required[j])
    && (forall r :: r in s.required ==> r in s.members)
    && (s.union ==> s.required == [])
  }

  lemma {:induction false} MissingNone(path: string, names: seq<string>, fields: map<string, Value>)
    ensures Missing(path, names, fields) == [] <==> forall n :: n in names ==> n in fields
  {
    hide MemberPath;
    if names != [] {
      var front, last := names[..|names| - 1], names[|names| - 1];
      MissingNone(path, front, fields);
      if forall n :: n in names ==> n in fields {
        assert last in names;
        forall n | n in front ensures n in fields { assert n in names; }
      } else {
        var n :| n in names && n !in fields;
        assert n in front || n == last;
      }
    }
  }

  lemma {:induction false} MissingOne(path: string, names: seq<string>, fields: map<string, Value>, gone: string)
    requires forall i, j :: 0 <= i < j < |names| ==> names[i] != names[j]
    requires forall n :: n in names ==> (n in fields <==> n != gone)
    ensures Missing(path, names, fields) == if gone in names then [Violation(RequiredMember, MemberPath(path, gone))] else []
  {
    if names != [] {
      var front := names[..|names| - 1];
      assert names == front + [names[|names| - 1]];
      MissingOne(path, front, fields, gone);
    }
  }

  lemma {:induction false} UnknownNone(path: string, names: seq<string>, members: map<string, ShapeRef>)
    ensures Unknown(path, names, members) == [] <==> forall n :: n in names ==> n in members
  {
    hide MemberPath;
    if names != [] {
      var front, last := names[..|names| - 1], names[|names| - 1];
      UnknownNone(path, front, members);
      if forall n :: n in names ==> n in members {
        assert last in names;
        forall n | n in front ensures n in members { assert n in names; }
      } else {
        var n :| n in names && n !in members;
        assert n in front || n == last;
      }
    }
  }

  /** Members other than one report nothing, so only that one's report is left. */
  lemma {:induction false} OnlyMember(m: Model, path: string, members: map<string, ShapeRef>, names: seq<string>, v: Value, n: string)
    requires forall k :: k in names ==> k in members
    requires forall i, j :: 0 <= i < j < |names| ==> names[i] != names[j]
    requires forall k :: k in names && k != n ==> OfMember(m, path, members, k, v) == []
    ensures OfMembers(m, path, members, names, v) == if n in names then OfMember(m, path, members, n, v) else []
  {
    hide OfMember;
    if names != [] {
      var front, last := names[..|names| - 1], names[|names| - 1];
      assert last !in front && forall k :: k in names <==> k in front || k == last;
      OnlyMember(m, path, members, front, v, n);
    }
  }

  lemma {:induction false} EachMember(m: Model, path: string, members: map<string, ShapeRef>, names: seq<string>, v: Value, k: string)
    requires (forall j :: j in names ==> j in members) && OfMembers(m, path, members, names, v) == [] && k in names
    ensures OfMember(m, path, members, k, v) == []
  {
    hide OfMember;
    var front := names[..|names| - 1];
    assert names == front + [names[|names| - 1]];
    if k != names[|names| - 1] { EachMember(m, path, members, front, v, k); }
  }

  // Structures.

  /** A structure conforms exactly when its required members are there, all members are known, and each conforms. */
  lemma StructureConforms(m: Model, name: string, fields: map<string, Value>)
    requires IsStructure(m, name)
    ensures Conforms(m, name, Fields(fields)) <==>
            && (forall r :: r in m.shapes[name].required ==> r in fields)
            && (forall k :: k in fields ==> k in m.shapes[name].members)
            && (forall k :: k in fields && k in m.shapes[name].members ==> Conforms(m, m.shapes[name].members[k].shape, fields[k]))
  {
    var shape := m.shapes[name];
    if Conforms(m, name, Fields(fields)) {
      StructureParts(m, name, "", fields);
      forall k | k in fields ensures Conforms(m, shape.members[k].shape, fields[k]) { MemberConforms(m, name, fields, k); }
    }
    if (forall r :: r in shape.required ==> r in fields) && (forall k :: k in fields ==> k in shape.members)
       && (forall k :: k in fields && k in shape.members ==> Conforms(m, shape.members[k].shape, fields[k])) {
      forall p ensures Violations(m, name, p, Fields(fields)) == [] { PartsConform(m, name, p, fields); }
    }
  }

  lemma StructureParts(m: Model, name: string, p: string, fields: map<string, Value>)
    requires IsStructure(m, name) && Violations(m, name, p, Fields(fields)) == []
    ensures forall r :: r in m.shapes[name].required ==> r in fields
    ensures forall k :: k in fields ==> k in m.shapes[name].members
    ensures forall k :: k in m.shapes[name].members ==> OfMember(m, p, m.shapes[name].members, k, Fields(fields)) == []
  {
    var shape, v := m.shapes[name], Fields(fields);
    var names := SortedKeys(shape.members.Keys);
    MissingNone(p, Sort(StringLess, shape.required), fields);
    MultisetMember(Sort(StringLess, shape.required), shape.required);
    UnknownNone(p, SortedKeys(fields.Keys), shape.members);
    assert OfMembers(m, p, shape.members, names, v) == [];
    hide OfMember, OfMembers, Missing, Unknown;
    forall k | k in shape.members ensures OfMember(m, p, shape.members, k, v) == [] { EachMember(m, p, shape.members, names, v, k); }
  }

  lemma MemberConforms(m: Model, name: string, fields: map<string, Value>, k: string)
    requires IsStructure(m, name) && Conforms(m, name, Fields(fields)) && k in fields && k in m.shapes[name].members
    ensures Conforms(m, m.shapes[name].members[k].shape, fields[k])
  {
    hide Violations;
    forall q ensures Violations(m, m.shapes[name].members[k].shape, q, fields[k]) == [] {
      StructureParts(m, name, q, fields);
      PathIrrelevant(m, m.shapes[name].members[k].shape, fields[k], MemberPath(q, k), q);
    }
  }

  /** Whether anything is reported does not depend on where the value is. */
  lemma {:induction false} PathIrrelevant(m: Model, name: string, v: Value, p: string, q: string)
    requires Violations(m, name, p, v) == []
    ensures Violations(m, name, q, v) == []
    decreases v, 1, 0
  {
    if name in m.shapes {
      match m.shapes[name]
      case Structure(required, members, _) =>
        MissingNone(p, Sort(StringLess, required), FieldsOf(v));
        MissingNone(q, Sort(StringLess, required), FieldsOf(v));
        UnknownNone(p, SortedKeys(FieldsOf(v).Keys), members);
        UnknownNone(q, SortedKeys(FieldsOf(v).Keys), members);
        MembersIrrelevant(m, members, SortedKeys(members.Keys), v, p, q);
      case List(member, _, _) => if v.Items? { ItemsIrrelevant(m, member, |v.items|, v, p, q); }
      case Map(key, value, _) => if v.Fields? { EntriesIrrelevant(m, key, value, SortedKeys(v.fields.Keys), v, p, q); }
      case Str(_) =>
      case Leaf(_) =>
    }
  }

  lemma {:induction false} MembersIrrelevant(m: Model, members: map<string, ShapeRef>, names: seq<string>, v: Value, p: string, q: string)
    requires (forall n :: n in names ==> n in members) && OfMembers(m, p, members, names, v) == []
    ensures OfMembers(m, q, members, names, v) == []
    decreases v, 0, |names|
  {
    if names != [] {
      var n := names[|names| - 1];
      MembersIrrelevant(m, members, names[..|names| - 1], v, p, q);
      if v.Fields? && n in v.fields { PathIrrelevant(m, members[n].shape, v.fields[n], MemberPath(p, n), MemberPath(q, n)); }
    }
  }

  lemma {:induction false} ItemsIrrelevant(m: Model, member: ShapeRef, n: nat, v: Value, p: string, q: string)
    requires v.Items? && n <= |v.items| && OfItems(m, p, member, n, v) == []
    ensures OfItems(m, q, member, n, v) == []
    decreases v, 0, n
  {
    if n > 0 {
      ItemsIrrelevant(m, member, n - 1, v, p, q);
      PathIrrelevant(m, member.shape, v.items[n - 1], IndexPath(p, n - 1), IndexPath(q, n - 1));
    }
  }

  lemma {:induction false} EntriesIrrelevant(m: Model, key: ShapeRef, value: ShapeRef, keys: seq<string>, v: Value, p: string, q: string)
    requires v.Fields? && (forall k :: k in keys ==> k in v.fields) && OfEntries(m, p, key, value, keys, v) == []
    ensures OfEntries(m, q, key, value, keys, v) == []
    decreases v, 0, |keys|
  {
    if keys != [] {
      var k := keys[|keys| - 1];
      EntriesIrrelevant(m, key, value, keys[..|keys| - 1], v, p, q);
      KeyIrrelevant(m, key.shape, k, KeyPath(m, p, k) + ".key", KeyPath(m, q, k) + ".key");
      PathIrrelevant(m, value.shape, v.fields[k], KeyPath(m, p, k), KeyPath(m, q, k));
    }
  }

  lemma KeyIrrelevant(m: Model, name: string, key: string, p: string, q: string)
    requires OfKey(m, name, p, key) == []
    ensures OfKey(m, name, q, key) == []
  {
    if name in m.shapes && m.shapes[name].Structure? {
      MissingNone(p, Sort(StringLess, m.shapes[name].required), map[]);
      MissingNone(q, Sort(StringLess, m.shapes[name].required), map[]);
    }
  }

  lemma PartsConform(m: Model, name: string, p: string, fields: map<string, Value>)
    requires IsStructure(m, name)
    requires (forall r :: r in m.shapes[name].required ==> r in fields) && (forall k :: k in fields ==> k in m.shapes[name].members)
    requires forall k :: k in fields && k in m.shapes[name].members ==> Conforms(m, m.shapes[name].members[k].shape, fields[k])
    ensures Violations(m, name, p, Fields(fields)) == []
  {
    var shape, v := m.shapes[name], Fields(fields);
    MissingNone(p, Sort(StringLess, shape.required), fields);
    MultisetMember(Sort(StringLess, shape.required), shape.required);
    UnknownNone(p, SortedKeys(fields.Keys), shape.members);
    SortedKeysDistinct(shape.members.Keys);
    forall k | k in shape.members ensures OfMember(m, p, shape.members, k, v) == [] {
      if k in fields { assert Violations(m, shape.members[k].shape, MemberPath(p, k), fields[k]) == []; }
    }
    var names := SortedKeys(shape.members.Keys);
    if names != [] { OnlyMember(m, p, shape.members, names, v, names[0]); }
  }

  /** After a change at one member of a conforming structure, the other members report nothing. */
  lemma RestSilent(m: Model, name: string, fields: map<string, Value>, changed: map<string, Value>, n: string, p: string)
    requires IsStructure(m, name) && Conforms(m, name, Fields(fields)) && n in m.shapes[name].members
    requires forall k :: k in changed && k != n ==> k in fields && changed[k] == fields[k]
    ensures OfMembers(m, p, m.shapes[name].members, SortedKeys(m.shapes[name].members.Keys), Fields(changed))
         == OfMember(m, p, m.shapes[name].members, n, Fields(changed))
  {
    StructureParts(m, name, p, fields);
    var members := m.shapes[name].members;
    var names := SortedKeys(members.Keys);
    SortedKeysDistinct(members.Keys);
    hide SortedKeys, Conforms, Violations;
    forall k | k in names && k != n ensures OfMember(m, p, members, k, Fields(changed)) == [] {
      assert OfMember(m, p, members, k, Fields(fields)) == [];
    }
    hide OfMembers, OfMember;
    OnlyMember(m, p, members, names, Fields(changed), n);
    assert n in names;
  }

  lemma NothingUnknown(m: Model, name: string, fields: map<string, Value>, p: string)
    requires IsStructure(m, name) && forall k :: k in fields ==> k in m.shapes[name].members
    ensures Unknown(p, SortedKeys(fields.Keys), m.shapes[name].members) == []
  {
    UnknownNone(p, SortedKeys(fields.Keys), m.shapes[name].members);
  }

  lemma NothingMissing(m: Model, name: string, fields: map<string, Value>, p: string)
    requires IsStructure(m, name) && forall r :: r in m.shapes[name].required ==> r in fields
    ensures Missing(p, Sort(StringLess, m.shapes[name].required), fields) == []
  {
    MissingNone(p, Sort(StringLess, m.shapes[name].required), fields);
    MultisetMember(Sort(StringLess, m.shapes[name].required), m.shapes[name].required);
  }

  /** Editing one member of a conforming structure leaves only that member's report. */
  lemma MemberOnly(m: Model, name: string, fields: map<string, Value>, n: string, w: Value, p: string)
    requires IsStructure(m, name) && Conforms(m, name, Fields(fields)) && n in fields
    ensures n in m.shapes[name].members
    ensures Violations(m, name, p, Fields(fields[n := w])) == Violations(m, m.shapes[name].members[n].shape, MemberPath(p, n), w)
  {
    hide Missing, Unknown, Sort, SortedKeys, Conforms, OfMembers, Violations, MemberPath;
    ConformingKeys(m, name, fields);
    var changed := fields[n := w];
    NothingMissing(m, name, changed, p);
    NothingUnknown(m, name, changed, p);
    RestSilent(m, name, fields, changed, n, p);
    OnlyMembersReport(m, name, changed, p);
  }

  lemma ConformingKeys(m: Model, name: string, fields: map<string, Value>)
    requires IsStructure(m, name) && Conforms(m, name, Fields(fields))
    ensures forall r :: r in m.shapes[name].required ==> r in fields
    ensures forall k :: k in fields ==> k in m.shapes[name].members
  {
    hide OfMember;
    StructureParts(m, name, "", fields);
  }

  lemma OnlyMembersReport(m: Model, name: string, fields: map<string, Value>, p: string)
    requires IsStructure(m, name)
    requires Missing(p, Sort(StringLess, m.shapes[name].required), fields) == []
    requires Unknown(p, SortedKeys(fields.Keys), m.shapes[name].members) == []
    ensures Violations(m, name, p, Fields(fields))
         == OfMembers(m, p, m.shapes[name].members, SortedKeys(m.shapes[name].members.Keys), Fields(fields))
  {
    hide Missing, Unknown, Sort, SortedKeys, OfMembers;
  }

  /** Dropping a required member of a conforming structure is reported once, at that member. */
  lemma RemoveRequired(m: Model, name: string, fields: map<string, Value>, n: string)
    requires IsStructure(m, name) && GoodStructure(m.shapes[name]) && Conforms(m, name, Fields(fields)) && n in m.shapes[name].required
    ensures Breaks(m, name, Fields(fields - {n}), RequiredMember, [Field(n)])
  {
    var shape, v := m.shapes[name], Fields(fields - {n});
    forall p ensures Violations(m, name, p, v) == [Violation(RequiredMember, FormatSteps(p, [Field(n)]))] {
      RemovedParts(m, name, fields, n, p);
      assert FormatSteps(p, [Field(n)]) == FormatSteps(MemberPath(p, n), []);
    }
  }

  lemma RemovedParts(m: Model, name: string, fields: map<string, Value>, n: string, p: string)
    requires IsStructure(m, name) && GoodStructure(m.shapes[name]) && Conforms(m, name, Fields(fields)) && n in m.shapes[name].required
    ensures Violations(m, name, p, Fields(fields - {n})) == [Violation(RequiredMember, MemberPath(p, n))]
  {
    StructureParts(m, name, p, fields);
    hide Missing, Unknown, Sort, SortedKeys, Conforms, OfMembers;
    var changed := fields - {n};
    RemovedMissing(m, name, fields, n, p);
    NothingUnknown(m, name, changed, p);
    RestSilent(m, name, fields, changed, n, p);
    assert OfMember(m, p, m.shapes[name].members, n, Fields(changed)) == [];
  }

  lemma RemovedMissing(m: Model, name: string, fields: map<string, Value>, n: string, p: string)
    requires IsStructure(m, name) && GoodStructure(m.shapes[name]) && n in m.shapes[name].required
    requires forall r :: r in m.shapes[name].required ==> r in fields
    ensures Missing(p, Sort(StringLess, m.shapes[name].required), fields - {n}) == [Violation(RequiredMember, MemberPath(p, n))]
  {
    var required := m.shapes[name].required;
    var sorted := Sort(StringLess, required);
    hide Sort;
    MultisetMember(sorted, required);
    DistinctKept(required, sorted, (r: string) => r);
    MissingOne(p, sorted, fields - {n}, n);
  }

  /** Leaving out optional members keeps a structure conforming. */
  lemma FewerMembers(m: Model, name: string, fields: map<string, Value>, fewer: map<string, Value>)
    requires IsStructure(m, name) && Conforms(m, name, Fields(fields))
    requires forall k :: k in fewer ==> k in fields && fewer[k] == fields[k]
    requires forall r :: r in m.shapes[name].required ==> r in fewer
    ensures Conforms(m, name, Fields(fewer))
  {
    hide Conforms;
    StructureConforms(m, name, fields);
    StructureConforms(m, name, fewer);
  }

  // Lists, maps and strings.

  lemma {:induction false} ItemsConform(m: Model, member: ShapeRef, n: nat, v: Value, p: string)
    requires v.Items? && n <= |v.items| && forall i :: 0 <= i < n ==> Conforms(m, member.shape, v.items[i])
    ensures OfItems(m, p, member, n, v) == []
  {
    hide Violations;
    if n > 0 {
      ItemsConform(m, member, n - 1, v, p);
      assert Violations(m, member.shape, IndexPath(p, n - 1), v.items[n - 1]) == [];
    }
  }

  lemma ListConforms(m: Model, name: string, items: seq<Value>)
    requires name in m.shapes && m.shapes[name].List? && forall i :: 0 <= i < |items| ==> Conforms(m, m.shapes[name].member.shape, items[i])
    ensures Conforms(m, name, Items(items))
  {
    forall p ensures Violations(m, name, p, Items(items)) == [] { ItemsConform(m, m.shapes[name].member, |items|, Items(items), p); }
  }

  lemma {:induction false} OnlyItem(m: Model, member: ShapeRef, n: nat, v: Value, i: nat, p: string)
    requires v.Items? && n <= |v.items|
    requires forall j :: 0 <= j < n && j != i ==> Violations(m, member.shape, IndexPath(p, j), v.items[j]) == []
    ensures OfItems(m, p, member, n, v) == if i < n then Violations(m, member.shape, IndexPath(p, i), v.items[i]) else []
  {
    hide Violations, IndexPath;
    if n > 0 { OnlyItem(m, member, n - 1, v, i, p); }
  }

  lemma MapConforms(m: Model, name: string, key: string, v: Value)
    requires name in m.shapes && m.shapes[name].Map?
    requires Conforms(m, m.shapes[name].key.shape, Text(key)) && Conforms(m, m.shapes[name].value.shape, v)
    ensures Conforms(m, name, Fields(map[key := v]))
  {
    var shape, whole := m.shapes[name], Fields(map[key := v]);
    assert whole.fields.Keys == {key};
    SingleKey(key);
    forall p ensures Violations(m, name, p, whole) == [] {
      OfKeyIsText(m, shape.key.shape, KeyPath(m, p, key) + ".key", key);
      assert [key][..0] == [];
      assert Violations(m, shape.key.shape, KeyPath(m, p, key) + ".key", Text(key)) == [];
      assert Violations(m, shape.value.shape, KeyPath(m, p, key), v) == [];
      assert OfEntries(m, p, shape.key, shape.value, [key], whole) == [];
    }
  }

  lemma SingleKey(key: string)
    ensures SortedKeys({key}) == [key]
  {
    var s := SortedKeys({key});
    assert key in s;
    assert forall i :: 0 <= i < |s| ==> s[i] in s;
    SortedKeysDistinct({key});
  }

  /** A value outside an enumeration is reported once, where it stands. */
  lemma EnumBroken(m: Model, name: string, text: string)
    requires name in m.shapes && m.shapes[name].Str? && m.shapes[name].enum != [] && text !in m.shapes[name].enum
    ensures Breaks(m, name, Text(text), EnumValue, [])
  {
  }

  // Constraint sites.

  datatype Constraint = Required | Enum | Other(kind: string)

  /** One constraint that an edit at `path` breaks. */
  datatype Site = Site(path: seq<PathStep>, constraint: Constraint, edit: Edit)

  function RuleOf(c: Constraint): Rule { if c.Required? then RequiredMember else EnumValue }

  /** `path` leads from the shape through structures and lists only. */
  ghost predicate MapFree(m: Model, name: string, path: seq<PathStep>)
    decreases |path|
  {
    path == [] ||
      (name in m.shapes &&
        match m.shapes[name]
        case Structure(_, members, _) => path[0].Field? && path[0].name in members && MapFree(m, members[path[0].name].shape, path[1..])
        case List(member, _, _) => path[0].Index? && MapFree(m, member.shape, path[1..])
        case _ => false)
  }

  /** A map key can only be renamed to text. */
  predicate Textual(site: Site) { site.edit.Rename? ==> site.edit.key.Text? }

  /**
   The site can be applied to a value at `base`; on a map-free path a required
   or enum one then gives exactly one violation, of its rule and at its path.
   */
  ghost predicate SiteHolds(m: Model, name: string, base: seq<PathStep>, v: Value, site: Site) {
    && base <= site.path
    && var below := site.path[|base|..];
       && (Textual(site) ==> Edited(v, below, site.edit).Some?)
       && (!site.constraint.Other? && MapFree(m, name, below) ==>
             Edited(v, below, site.edit).Some? && Breaks(m, name, Edited(v, below, site.edit).value, RuleOf(site.constraint), below))
  }

  lemma EditedInside(v: Value, path: seq<PathStep>, e: Edit)
    requires path != [] && Edited(v, path, e).Some?
    ensures v.Fields? ==> Edited(v, path, e).value.Fields?
  {
  }

  lemma Deeper(base: seq<PathStep>, step: PathStep, path: seq<PathStep>)
    requires base + [step] <= path
    ensures base <= path && path[|base|..] == [step] + path[|base| + 1..] && path[|base + [step]|..] == path[|base|..][1..]
  {
    assert path[|base|] == (base + [step])[|base|];
  }

  /** A site of a member is a site of the structure. */
  lemma LiftMember(m: Model, name: string, base: seq<PathStep>, fields: map<string, Value>, n: string, site: Site)
    requires IsStructure(m, name) && Conforms(m, name, Fields(fields)) && n in fields && n in m.shapes[name].members
    requires SiteHolds(m, m.shapes[name].members[n].shape, base + [Field(n)], fields[n], site)
    ensures SiteHolds(m, name, base, Fields(fields), site)
  {
    Deeper(base, Field(n), site.path);
    var below := site.path[|base|..];
    var rest := below[1..];
    if !site.constraint.Other? && MapFree(m, name, below) {
      var w := Edited(fields[n], rest, site.edit).value;
      hide Violations;
      assert Edited(Fields(fields), below, site.edit) == Some(Fields(fields[n := w]));
      forall p ensures Violations(m, name, p, Fields(fields[n := w])) == [Violation(RuleOf(site.constraint), FormatSteps(p, below))] {
        MemberOnly(m, name, fields, n, w, p);
        assert Violations(m, m.shapes[name].members[n].shape, MemberPath(p, n), w) == [Violation(RuleOf(site.constraint), FormatSteps(MemberPath(p, n), rest))];
      }
    }
  }

  lemma LiftItem(m: Model, name: string, base: seq<PathStep>, items: seq<Value>, i: nat, site: Site)
    requires name in m.shapes && m.shapes[name].List? && i < |items|
    requires forall j :: 0 <= j < |items| ==> Conforms(m, m.shapes[name].member.shape, items[j])
    requires SiteHolds(m, m.shapes[name].member.shape, base + [Index(i)], items[i], site)
    ensures SiteHolds(m, name, base, Items(items), site)
  {
    Deeper(base, Index(i), site.path);
    var below := site.path[|base|..];
    var rest, member := below[1..], m.shapes[name].member;
    if !site.constraint.Other? && MapFree(m, name, below) {
      var w := Edited(items[i], rest, site.edit).value;
      var v := Items(items[i := w]);
      assert Edited(Items(items), below, site.edit) == Some(v);
      forall p ensures Violations(m, name, p, v) == [Violation(RuleOf(site.constraint), FormatSteps(p, below))] {
        forall j | 0 <= j < |v.items| && j != i ensures Violations(m, member.shape, IndexPath(p, j), v.items[j]) == [] {
          assert Conforms(m, member.shape, items[j]);
        }
        OnlyItem(m, member, |v.items|, v, i, p);
        hide OfItems;
        assert Violations(m, member.shape, IndexPath(p, i), w) == [Violation(RuleOf(site.constraint), FormatSteps(IndexPath(p, i), rest))];
      }
    }
  }

  lemma RequiredSite(m: Model, name: string, base: seq<PathStep>, fields: map<string, Value>, n: string)
    requires IsStructure(m, name) && GoodStructure(m.shapes[name]) && Conforms(m, name, Fields(fields)) && n in m.shapes[name].required
    ensures SiteHolds(m, name, base, Fields(fields), Site(base + [Field(n)], Required, Remove))
  {
    assert (base + [Field(n)])[|base|..] == [Field(n)];
    hide Violations;
    RemoveRequired(m, name, fields, n);
  }
}
