/**
 Service models: named shapes, values built from them, and the validator that
 reports every way a value departs from its shape.
 */
module AwsModel {
  import opened Wrappers
  import opened Sorting

  datatype ShapeRef = ShapeRef(shape: string, location: string, locationName: string, flattened: bool, streaming: bool, xmlAttribute: bool)

  /** `Leaf` stands for every type other than the four that validation tells apart. */
  datatype Shape =
    | Structure(required: seq<string>, members: map<string, ShapeRef>, union: bool)
    | List(member: ShapeRef, min: Option<int>, max: Option<int>)
    | Map(key: ShapeRef, value: ShapeRef, bounded: bool)
    | Str(enum: seq<string>)
    | Leaf(kind: string)

  /** `quote` spells a map key in a path; `flattened` names the shapes marked as flattened themselves. */
  datatype Model = Model(shapes: map<string, Shape>, quote: string -> string, flattened: set<string>)

  /** Structures and maps are both `Fields`; a scalar is known by its spelling. */
  datatype Value =
    | Null
    | Fields(fields: map<string, Value>)
    | Items(items: seq<Value>)
    | Text(text: string)
    | Scalar(spelling: string)

  datatype Rule = RequiredMember | UnknownField | EnumValue

  datatype Violation = Violation(rule: Rule, path: string)

  // Paths.

  function Digit(n: nat): char
    requires n < 10
  {
    "0123456789"[n]
  }

  function Itoa(n: nat): string { if n < 10 then [Digit(n)] else Itoa(n / 10) + [Digit(n % 10)] }

  function MemberPath(path: string, name: string): string { path + "." + name }

  function IndexPath(path: string, i: nat): string { path + "[" + Itoa(i) + "]" }

  function KeyPath(m: Model, path: string, key: string): string { path + "[" + m.quote(key) + "]" }

  // What the validator reports.

  function Missing(path: string, required: seq<string>, fields: map<string, Value>): seq<Violation> {
    if required == [] then []
    else Missing(path, required[..|required| - 1], fields)
         + var name := required[|required| - 1];
           if name in fields then [] else [Violation(RequiredMember, MemberPath(path, name))]
  }

  function Unknown(path: string, names: seq<string>, members: map<string, ShapeRef>): seq<Violation> {
    if names == [] then []
    else Unknown(path, names[..|names| - 1], members)
         + var name := names[|names| - 1];
           if name in members then [] else [Violation(UnknownField, MemberPath(path, name))]
  }

  function FieldsOf(v: Value): map<string, Value> { if v.Fields? then v.fields else map[] }

  function Violations(m: Model, name: string, path: string, v: Value): seq<Violation>
    decreases v, 1, 0
  {
    if name !in m.shapes then []
    else
      match m.shapes[name]
      case Structure(required, members, _) =>
        Missing(path, Sort(StringLess, required), FieldsOf(v))
        + Unknown(path, SortedKeys(FieldsOf(v).Keys), members)
        + OfMembers(m, path, members, SortedKeys(members.Keys), v)
      case List(member, _, _) => if v.Items? then OfItems(m, path, member, |v.items|, v) else []
      case Map(key, value, _) => if v.Fields? then OfEntries(m, path, key, value, SortedKeys(v.fields.Keys), v) else []
      case Str(enum) =>
        if v.Text? && enum != [] && v.text !in enum then [Violation(EnumValue, path)] else []
      case Leaf(_) => []
  }

  function OfMembers(m: Model, path: string, members: map<string, ShapeRef>, names: seq<string>, v: Value): seq<Violation>
    requires forall n :: n in names ==> n in members
    decreases v, 0, |names|
  {
    if names == [] then []
    else OfMembers(m, path, members, names[..|names| - 1], v) + OfMember(m, path, members, names[|names| - 1], v)
  }

  function OfMember(m: Model, path: string, members: map<string, ShapeRef>, name: string, v: Value): seq<Violation>
    requires name in members
    decreases v, 0, 0
  {
    if v.Fields? && name in v.fields then Violations(m, members[name].shape, MemberPath(path, name), v.fields[name]) else []
  }

  function OfItems(m: Model, path: string, member: ShapeRef, n: nat, v: Value): seq<Violation>
    requires v.Items? && n <= |v.items|
    decreases v, 0, n
  {
    if n == 0 then []
    else OfItems(m, path, member, n - 1, v) + Violations(m, member.shape, IndexPath(path, n - 1), v.items[n - 1])
  }

  function OfEntries(m: Model, path: string, key: ShapeRef, value: ShapeRef, keys: seq<string>, v: Value): seq<Violation>
    requires v.Fields? && forall k :: k in keys ==> k in v.fields
    decreases v, 0, |keys|
  {
    if keys == [] then []
    else
      var k := keys[|keys| - 1];
      OfEntries(m, path, key, value, keys[..|keys| - 1], v)
      + OfKey(m, key.shape, KeyPath(m, path, k) + ".key", k)
      + Violations(m, value.shape, KeyPath(m, path, k), v.fields[k])
  }

  /** A map key is validated as a string value of the key's shape. */
  function OfKey(m: Model, name: string, path: string, key: string): seq<Violation> {
    if name !in m.shapes then []
    else
      match m.shapes[name]
      case Structure(required, _, _) => Missing(path, Sort(StringLess, required), map[])
      case Str(enum) => if enum != [] && key !in enum then [Violation(EnumValue, path)] else []
      case _ => []
  }

  /** Validating a key and validating a string value report the same. */
  lemma OfKeyIsText(m: Model, name: string, path: string, key: string)
    ensures OfKey(m, name, path, key) == Violations(m, name, path, Text(key))
  {
    if name in m.shapes && m.shapes[name].Structure? {
      NoMembers(m, path, m.shapes[name].members, SortedKeys(m.shapes[name].members.Keys), Text(key));
      assert SortedKeys({}) == [];
    }
  }

  lemma {:induction false} NoMembers(m: Model, path: string, members: map<string, ShapeRef>, names: seq<string>, v: Value)
    requires !v.Fields? && forall n :: n in names ==> n in members
    ensures OfMembers(m, path, members, names, v) == []
  {
    if names != [] { NoMembers(m, path, members, names[..|names| - 1], v); }
  }

  // The report as a set.

  /** The decimal numeral's value. */
  function Decimal(s: string): nat
    requires forall i :: 0 <= i < |s| ==> '0' <= s[i] <= '9'
  {
    if s == "" then 0 else 10 * Decimal(s[..|s| - 1]) + (s[|s| - 1] as int - '0' as int)
  }

  /** An index is spelled in decimal, without a leading zero. */
  lemma {:induction false} ItoaMeaning(n: nat)
    ensures forall i :: 0 <= i < |Itoa(n)| ==> '0' <= Itoa(n)[i] <= '9'
    ensures Decimal(Itoa(n)) == n && Itoa(n) != "" && (Itoa(n)[0] == '0' ==> n == 0)
  {
    if n >= 10 { ItoaMeaning(n / 10); }
    var d := n % 10;
    assert Digit(d) as int == '0' as int + d;
    if n < 10 { assert Itoa(n)[..0] == ""; } else { assert Itoa(n)[..|Itoa(n)| - 1] == Itoa(n / 10); }
  }

  /** A key that is no string of the key's shape. */
  ghost predicate KeyDeparts(m: Model, name: string, path: string, key: string, x: Violation) {
    name in m.shapes &&
      match m.shapes[name]
      case Structure(required, _, _) => exists r :: r in required && x == Violation(RequiredMember, path + "." + r)
      case Str(enum) => enum != [] && key !in enum && x == Violation(EnumValue, path)
      case _ => false
  }

  /** Somewhere in the value, `x` is a departure from the shape at that place. */
  ghost predicate Departs(m: Model, name: string, path: string, v: Value, x: Violation)
    decreases v, 1
  {
    name in m.shapes &&
      match m.shapes[name]
      case Structure(required, members, _) =>
        || (exists r :: r in required && !(v.Fields? && r in v.fields) && x == Violation(RequiredMember, path + "." + r))
        || (v.Fields? && exists n :: n in v.fields && n !in members && x == Violation(UnknownField, path + "." + n))
        || (v.Fields? && exists n :: n in v.fields && n in members && Departs(m, members[n].shape, path + "." + n, v.fields[n], x))
      case List(member, _, _) => v.Items? && exists i :: 0 <= i < |v.items| && Departs(m, member.shape, path + "[" + Itoa(i) + "]", v.items[i], x)
      case Map(key, value, _) => v.Fields? && exists k :: k in v.fields && EntryDeparts(m, key, value, path, k, v, x)
      case Str(enum) => v.Text? && enum != [] && v.text !in enum && x == Violation(EnumValue, path)
      case Leaf(_) => false
  }

  ghost predicate EntryDeparts(m: Model, key: ShapeRef, value: ShapeRef, path: string, k: string, v: Value, x: Violation)
    requires v.Fields? && k in v.fields
    decreases v, 0
  {
    || KeyDeparts(m, key.shape, path + "[" + m.quote(k) + "]" + ".key", k, x)
    || Departs(m, value.shape, path + "[" + m.quote(k) + "]", v.fields[k], x)
  }

  lemma {:induction false} MissingMember(path: string, names: seq<string>, fields: map<string, Value>, x: Violation)
    ensures x in Missing(path, names, fields) <==> exists r :: r in names && r !in fields && x == Violation(RequiredMember, path + "." + r)
  {
    if names != [] { MissingMember(path, names[..|names| - 1], fields, x); }
  }

  lemma {:induction false} UnknownMember(path: string, names: seq<string>, members: map<string, ShapeRef>, x: Violation)
    ensures x in Unknown(path, names, members) <==> exists n :: n in names && n !in members && x == Violation(UnknownField, path + "." + n)
  {
    if names != [] { UnknownMember(path, names[..|names| - 1], members, x); }
  }

  lemma KeyMeaning(m: Model, name: string, path: string, key: string, x: Violation)
    ensures x in OfKey(m, name, path, key) <==> KeyDeparts(m, name, path, key, x)
  {
    if name in m.shapes && m.shapes[name].Structure? {
      var required := m.shapes[name].required;
      MissingMember(path, Sort(StringLess, required), map[], x);
      MultisetMember(Sort(StringLess, required), required);
    }
  }

  /** The validator reports exactly the departures of a value from its shape, each at its place. */
  lemma {:induction false} ViolationsMeaning(m: Model, name: string, path: string, v: Value, x: Violation)
    ensures x in Violations(m, name, path, v) <==> Departs(m, name, path, v, x)
    decreases v, 1, 0
  {
    hide Missing, Unknown, OfMembers, OfItems, OfEntries, Sort, SortedKeys, Itoa;
    if name in m.shapes {
      match m.shapes[name]
      case Structure(required, members, _) =>
        var fields := FieldsOf(v);
        MissingMember(path, Sort(StringLess, required), fields, x);
        MultisetMember(Sort(StringLess, required), required);
        UnknownMember(path, SortedKeys(fields.Keys), members, x);
        MembersMeaning(m, path, members, SortedKeys(members.Keys), v, x);
      case List(member, _, _) => if v.Items? { ItemsMeaning(m, path, member, |v.items|, v, x); }
      case Map(key, value, _) => if v.Fields? { EntriesMeaning(m, path, key, value, SortedKeys(v.fields.Keys), v, x); }
      case _ =>
    }
  }

  lemma {:induction false} MembersMeaning(m: Model, path: string, members: map<string, ShapeRef>, names: seq<string>, v: Value, x: Violation)
    requires forall n :: n in names ==> n in members
    ensures x in OfMembers(m, path, members, names, v) <==>
      exists n :: n in names && v.Fields? && n in v.fields && Departs(m, members[n].shape, path + "." + n, v.fields[n], x)
    decreases v, 0, |names|
  {
    if names != [] {
      var n := names[|names| - 1];
      MembersMeaning(m, path, members, names[..|names| - 1], v, x);
      if v.Fields? && n in v.fields { ViolationsMeaning(m, members[n].shape, path + "." + n, v.fields[n], x); }
      hide Violations, Departs;
    }
  }

  lemma {:induction false} ItemsMeaning(m: Model, path: string, member: ShapeRef, n: nat, v: Value, x: Violation)
    requires v.Items? && n <= |v.items|
    ensures x in OfItems(m, path, member, n, v) <==> exists i :: 0 <= i < n && Departs(m, member.shape, path + "[" + Itoa(i) + "]", v.items[i], x)
    decreases v, 0, n
  {
    hide Violations, Departs, Itoa;
    if n > 0 {
      ItemsMeaning(m, path, member, n - 1, v, x);
      ViolationsMeaning(m, member.shape, path + "[" + Itoa(n - 1) + "]", v.items[n - 1], x);
    }
  }

  lemma {:induction false} EntriesMeaning(m: Model, path: string, key: ShapeRef, value: ShapeRef, keys: seq<string>, v: Value, x: Violation)
    requires v.Fields? && forall k :: k in keys ==> k in v.fields
    ensures x in OfEntries(m, path, key, value, keys, v) <==> exists k :: k in keys && EntryDeparts(m, key, value, path, k, v, x)
    decreases v, 0, |keys|
  {
    if keys != [] {
      var k := keys[|keys| - 1];
      EntriesMeaning(m, path, key, value, keys[..|keys| - 1], v, x);
      KeyMeaning(m, key.shape, path + "[" + m.quote(k) + "]" + ".key", k, x);
      ViolationsMeaning(m, value.shape, path + "[" + m.quote(k) + "]", v.fields[k], x);
      hide Violations, Departs, OfKey, KeyDeparts;
    }
  }

  /** The validator, appending what it finds to one list. */
  class Validator {
    const model: Model
    var violations: seq<Violation>

    constructor (model: Model)
      ensures this.model == model && violations == []
    {
      this.model := model;
      violations := [];
    }

    method ValidateShape(name: string, path: string, v: Value)
      modifies this
      ensures violations == old(violations) + Violations(model, name, path, v)
      decreases v, 3
    {
      hide OfEntries, OfItems, OfMembers, Missing, Unknown;
      if name !in model.shapes { return; }
      match model.shapes[name]
      case Structure(_, _, _) => ValidateStructure(name, path, v);
      case List(member, _, _) => if v.Items? { ValidateItems(member, path, v); }
      case Map(key, value, _) => if v.Fields? { ValidateEntries(key, value, path, v); }
      case Str(enum) =>
        if v.Text? && enum != [] && v.text !in enum {
          violations := violations + [Violation(EnumValue, path)];
        }
      case Leaf(_) =>
    }

    method ValidateItems(member: ShapeRef, path: string, v: Value)
      modifies this
      requires v.Items?
      ensures violations == old(violations) + OfItems(model, path, member, |v.items|, v)
      decreases v, 2
    {
      hide Violations;
      for i := 0 to |v.items|
        invariant violations == old(violations) + OfItems(model, path, member, i, v)
      {
        ValidateShape(member.shape, IndexPath(path, i), v.items[i]);
      }
    }

    method ValidateEntries(key: ShapeRef, value: ShapeRef, path: string, v: Value)
      modifies this
      requires v.Fields?
      ensures violations == old(violations) + OfEntries(model, path, key, value, SortedKeys(v.fields.Keys), v)
      decreases v, 2
    {
      hide Violations, OfKey, KeyPath, SortedKeys;
      var keys := SortedKeys(v.fields.Keys);
      for i := 0 to |keys|
        invariant violations == old(violations) + OfEntries(model, path, key, value, keys[..i], v)
      {
        assert keys[..i + 1][..i] == keys[..i];
        ValidateKey(key.shape, KeyPath(model, path, keys[i]) + ".key", keys[i]);
        ValidateShape(value.shape, KeyPath(model, path, keys[i]), v.fields[keys[i]]);
      }
      assert keys[..|keys|] == keys;
    }

    method ValidateKey(name: string, path: string, key: string)
      modifies this
      ensures violations == old(violations) + OfKey(model, name, path, key)
    {
      if name !in model.shapes { return; }
      match model.shapes[name]
      case Structure(required, _, _) => ReportMissing(path, required, map[]);
      case Str(enum) => if enum != [] && key !in enum { violations := violations + [Violation(EnumValue, path)]; }
      case _ =>
    }

    method ReportMissing(path: string, required: seq<string>, fields: map<string, Value>)
      modifies this
      ensures violations == old(violations) + Missing(path, Sort(StringLess, required), fields)
    {
      hide Sort, MemberPath;
      var names := Sort(StringLess, required);
      for i := 0 to |names|
        invariant violations == old(violations) + Missing(path, names[..i], fields)
      {
        assert names[..i + 1][..i] == names[..i];
        if names[i] !in fields { violations := violations + [Violation(RequiredMember, MemberPath(path, names[i]))]; }
      }
      assert names[..|names|] == names;
    }

    method ReportUnknown(path: string, fields: map<string, Value>, members: map<string, ShapeRef>)
      modifies this
      ensures violations == old(violations) + Unknown(path, SortedKeys(fields.Keys), members)
    {
      hide SortedKeys, MemberPath;
      var names := SortedKeys(fields.Keys);
      for i := 0 to |names|
        invariant violations == old(violations) + Unknown(path, names[..i], members)
      {
        assert names[..i + 1][..i] == names[..i];
        if names[i] !in members { violations := violations + [Violation(UnknownField, MemberPath(path, names[i]))]; }
      }
      assert names[..|names|] == names;
    }

    method ValidateStructure(name: string, path: string, v: Value)
      modifies this
      requires name in model.shapes && model.shapes[name].Structure?
      ensures violations == old(violations) + Violations(model, name, path, v)
      decreases v, 2
    {
      hide Missing, Unknown, OfMembers, Sort, SortedKeys;
      var shape, fields := model.shapes[name], FieldsOf(v);
      ReportMissing(path, shape.required, fields);
      ReportUnknown(path, fields, shape.members);
      ValidateMembers(shape.members, path, v);
    }

    method ValidateMembers(members: map<string, ShapeRef>, path: string, v: Value)
      modifies this
      ensures violations == old(violations) + OfMembers(model, path, members, SortedKeys(members.Keys), v)
      decreases v, 1
    {
      hide Violations, SortedKeys, MemberPath;
      var names := SortedKeys(members.Keys);
      for i := 0 to |names|
        invariant violations == old(violations) + OfMembers(model, path, members, names[..i], v)
      {
        assert names[..i + 1][..i] == names[..i];
        if v.Fields? && names[i] in v.fields {
          ValidateShape(members[names[i]].shape, MemberPath(path, names[i]), v.fields[names[i]]);
        }
      }
      assert names[..|names|] == names;
    }
  }
}
