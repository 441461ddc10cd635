/**
 Values as XML: the encoder's element tree for a value, the decoder that reads
 a tree back against the model, and the round trip between the two. The
 decoder is that of the protocols other than ec2.
 */
module AwsXml {
  import opened Wrappers
  import opened Sorting
  import opened Text
  import opened AwsModel

  datatype Node = Node(name: string, attrs: seq<(string, string)>, text: string, children: seq<Node>)

  /** A member's wire name: the one bound to it, or its own. */
  function ElementName(member: string, ref: ShapeRef): string { if ref.locationName != "" then ref.locationName else member }

  predicate IsTransportMetadata(name: string) { Lower(name) == "requestid" || Lower(name) == "responsemetadata" }

  // Encoding.

  function ScalarText(v: Value): Option<string> {
    match v case Text(s) => Some(s) case Scalar(s) => Some(s) case _ => None
  }

  /** What a value adds to its parent element. */
  datatype Part = Part(attrs: seq<(string, string)>, nodes: seq<Node>)

  function Join(a: Option<seq<Node>>, b: Option<seq<Node>>): Option<seq<Node>> {
    if a.Some? && b.Some? then Some(a.value + b.value) else None
  }

  function JoinParts(a: Option<Part>, b: Option<Part>): Option<Part> {
    if a.Some? && b.Some? then Some(Part(a.value.attrs + b.value.attrs, a.value.nodes + b.value.nodes)) else None
  }

  /** The elements a value is encoded as, or None when it does not fit its shape. */
  function Encode(m: Model, name: string, ref: ShapeRef, v: Value): Option<seq<Node>>
    decreases v, 1, 0
  {
    if ref.shape !in m.shapes then None
    else
      match m.shapes[ref.shape]
      case Structure(_, members, _) =>
        if !v.Fields? then None
        else (match EncodeFields(m, members, SortedKeys(v.fields.Keys), v)
              case None => None
              case Some(part) => Some([Node(name, part.attrs, "", part.nodes)]))
      case List(member, _, _) =>
        if !v.Items? then None
        else if ref.flattened then EncodeItems(m, name, member, |v.items|, v)
        else (match EncodeItems(m, ElementName("member", member), member, |v.items|, v)
              case None => None
              case Some(nodes) => Some([Node(name, [], "", nodes)]))
      case Map(key, value, _) =>
        if !v.Fields? then None
        else if ref.flattened then EncodeEntries(m, name, key, value, SortedKeys(v.fields.Keys), v)
        else (match EncodeEntries(m, "entry", key, value, SortedKeys(v.fields.Keys), v)
              case None => None
              case Some(nodes) => Some([Node(name, [], "", nodes)]))
      case _ => (match ScalarText(v) case None => None case Some(s) => Some([Node(name, [], s, [])]))
  }

  function EncodeFields(m: Model, members: map<string, ShapeRef>, names: seq<string>, v: Value): Option<Part>
    requires v.Fields? && forall n :: n in names ==> n in v.fields
    decreases v, 0, |names|
  {
    if names == [] then Some(Part([], []))
    else JoinParts(EncodeFields(m, members, names[..|names| - 1], v), EncodeField(m, members, names[|names| - 1], v))
  }

  function EncodeField(m: Model, members: map<string, ShapeRef>, n: string, v: Value): Option<Part>
    requires v.Fields? && n in v.fields
    decreases v, 0, 0
  {
    if n !in members then None
    else if members[n].xmlAttribute then
      match ScalarText(v.fields[n]) case None => None case Some(s) => Some(Part([(ElementName(n, members[n]), s)], []))
    else
      match Encode(m, ElementName(n, members[n]), members[n], v.fields[n]) case None => None case Some(nodes) => Some(Part([], nodes))
  }

  function EncodeItems(m: Model, name: string, ref: ShapeRef, n: nat, v: Value): Option<seq<Node>>
    requires v.Items? && n <= |v.items|
    decreases v, 0, n
  {
    if n == 0 then Some([]) else Join(EncodeItems(m, name, ref, n - 1, v), Encode(m, name, ref, v.items[n - 1]))
  }

  function EncodeEntries(m: Model, name: string, key: ShapeRef, value: ShapeRef, keys: seq<string>, v: Value): Option<seq<Node>>
    requires v.Fields? && forall k :: k in keys ==> k in v.fields
    decreases v, 0, |keys|
  {
    if keys == [] then Some([])
    else Join(EncodeEntries(m, name, key, value, keys[..|keys| - 1], v), EncodeEntry(m, name, key, value, keys[|keys| - 1], v))
  }

  function EncodeEntry(m: Model, name: string, key: ShapeRef, value: ShapeRef, k: string, v: Value): Option<seq<Node>>
    requires v.Fields? && k in v.fields
    decreases v, 0, 0
  {
    match Encode(m, ElementName("value", value), value, v.fields[k])
    case None => None
    case Some(nodes) => Some([Node(name, [], "", [Node(ElementName("key", key), [], k, [])] + nodes)])
  }

  // Decoding.

  /** The items of a list are not of a flattened shape, or decoding a recursive one would not end. */
  ghost predicate ItemsUnflattened(m: Model) {
    forall n :: n in m.shapes && m.shapes[n].List? ==> m.shapes[n].member.shape !in m.flattened
  }

  type Decodable = m: Model | ItemsUnflattened(m) witness Model(map[], (s: string) => s, {})

  function Size(n: Node): nat { 1 + Sizes(n.children) }

  function Sizes(s: seq<Node>): nat { if s == [] then 0 else Sizes(s[..|s| - 1]) + Size(s[|s| - 1]) }

  /** The children of a given name, in order. */
  function Named(nodes: seq<Node>, name: string): (r: seq<Node>)
    ensures Sizes(r) <= Sizes(nodes)
    ensures forall i :: 0 <= i < |r| ==> r[i].name == name
  {
    if nodes == [] then []
    else
      var front, last := Named(nodes[..|nodes| - 1], name), nodes[|nodes| - 1];
      if last.name == name then (assert (front + [last])[..|front|] == front; front + [last]) else front
  }

  lemma {:induction false} SizeOfItem(nodes: seq<Node>, i: nat)
    requires i < |nodes|
    ensures Size(nodes[i]) <= Sizes(nodes)
  {
    if i < |nodes| - 1 { SizeOfItem(nodes[..|nodes| - 1], i); }
  }

  lemma SizeOfOne(n: Node)
    ensures Sizes([n]) == Size(n)
  {
    assert [n][..0] == [];
  }

  function First(nodes: seq<Node>, name: string): (r: Option<Node>)
    ensures r.Some? ==> r.value in nodes && r.value.name == name
  {
    if nodes == [] then None else if nodes[0].name == name then Some(nodes[0]) else First(nodes[1..], name)
  }

  /** The value that elements stand for. Flattened collections are the elements themselves; others are inside the first. */
  function Normalize(m: Decodable, name: string, nodes: seq<Node>, flattened: bool): Value
    decreases Sizes(nodes), if flattened || name in m.flattened then 3 else 1, 0
  {
    if name !in m.shapes || nodes == [] then Null
    else
      SizeOfItem(nodes, 0);
      match m.shapes[name]
      case Structure(_, members, _) => Fields(Document(m, members, nodes[0]))
      case List(member, _, _) =>
        if flattened || name in m.flattened then Items(NormalizeEach(m, member.shape, nodes, |nodes|))
        else
          var items := Named(nodes[0].children, ElementName("member", member));
          Items(NormalizeEach(m, member.shape, items, |items|))
      case Map(key, value, _) =>
        if flattened || name in m.flattened then Fields(NormalizeEntries(m, key, value, nodes, |nodes|))
        else
          var entries := Named(nodes[0].children, "entry");
          Fields(NormalizeEntries(m, key, value, entries, |entries|))
      case _ => Text(TrimSpace(nodes[0].text))
  }

  function NormalizeEach(m: Decodable, name: string, nodes: seq<Node>, n: nat): seq<Value>
    requires n <= |nodes| && name !in m.flattened
    decreases Sizes(nodes), 2, n
  {
    if n == 0 then []
    else
      SizeOfItem(nodes, n - 1);
      SizeOfOne(nodes[n - 1]);
      NormalizeEach(m, name, nodes, n - 1) + [Normalize(m, name, [nodes[n - 1]], false)]
  }

  function NormalizeEntries(m: Decodable, key: ShapeRef, value: ShapeRef, entries: seq<Node>, n: nat): map<string, Value>
    requires n <= |entries|
    decreases Sizes(entries), 2, n
  {
    if n == 0 then map[]
    else
      var before := NormalizeEntries(m, key, value, entries, n - 1);
      SizeOfItem(entries, n - 1);
      var k, v := First(entries[n - 1].children, ElementName("key", key)), First(entries[n - 1].children, ElementName("value", value));
      if k.Some? && v.Some? then
        SmallerChild(entries[n - 1], v.value);
        before[TrimSpace(k.value.text) := Normalize(m, value.shape, [v.value], false)]
      else before
  }

  lemma SmallerChild(parent: Node, child: Node)
    requires child in parent.children
    ensures Sizes([child]) < Size(parent)
  {
    var i :| 0 <= i < |parent.children| && parent.children[i] == child;
    SizeOfItem(parent.children, i);
    SizeOfOne(child);
  }

  function ChildNames(nodes: seq<Node>): set<string> { set c | c in nodes :: c.name }

  /** The elements of a given name, none for the names transports reserve. */
  function Group(node: Node, name: string): (r: seq<Node>)
    ensures Sizes(r) < Size(node)
  {
    if IsTransportMetadata(name) then [] else Named(node.children, name)
  }

  predicate Bound(members: map<string, ShapeRef>, wire: string) { exists n :: n in members && ElementName(n, members[n]) == wire }

  /** The flag a member is decoded with: its reference's or its shape's. */
  predicate FlatRef(m: Decodable, ref: ShapeRef) { ref.flattened || (ref.shape in m.shapes && ref.shape in m.flattened) }

  function MemberValue(m: Decodable, n: string, ref: ShapeRef, node: Node): Value
    decreases Size(node), 0, 0
  {
    Normalize(m, ref.shape, Group(node, ElementName(n, ref)), FlatRef(m, ref))
  }

  lemma ShapeFlagImplied(m: Decodable, ref: ShapeRef, nodes: seq<Node>)
    ensures Normalize(m, ref.shape, nodes, FlatRef(m, ref)) == Normalize(m, ref.shape, nodes, ref.flattened)
  {
    hide NormalizeEach, NormalizeEntries, Document, Named;
  }

  /** The members among a structure's elements; an element no member is bound to is kept as text under its own name. */
  function Document(m: Decodable, members: map<string, ShapeRef>, node: Node): map<string, Value>
    decreases Size(node), 0, 2
  {
    Unmodelled(members, node) + Modelled(m, members, node, members.Keys)
  }

  function Unmodelled(members: map<string, ShapeRef>, node: Node): map<string, Value> {
    map w | w in ChildNames(node.children) && Group(node, w) != [] && !Bound(members, w) :: Text(TrimSpace(Group(node, w)[0].text))
  }

  function Modelled(m: Decodable, members: map<string, ShapeRef>, node: Node, names: set<string>): map<string, Value>
    decreases Size(node), 0, 1
  {
    map n | n in names && n in members && Group(node, ElementName(n, members[n])) != [] :: MemberValue(m, n, members[n], node)
  }

  // Shapes and values that survive the round trip.

  predicate IsCollection(m: Decodable, name: string) { name in m.shapes && (m.shapes[name].List? || m.shapes[name].Map?) }

  /** An element of a collection may not itself be a flattened collection. */
  ghost predicate Unflattened(m: Decodable, ref: ShapeRef) {
    ref.shape in m.shapes && !((ref.flattened || ref.shape in m.flattened) && IsCollection(m, ref.shape))
  }

  /** The encoder looks at the reference alone, so a flattened shape must have a flattened reference. */
  ghost predicate FlatAgrees(m: Decodable, ref: ShapeRef) { ref.shape in m.flattened ==> ref.flattened }

  ghost predicate WellWiredShape(m: Decodable, s: Shape) {
    match s
    case Structure(_, members, _) =>
      && (forall n :: n in members ==> members[n].shape in m.shapes && !members[n].xmlAttribute && !IsTransportMetadata(ElementName(n, members[n])))
      && (forall n, k :: n in members && k in members && ElementName(n, members[n]) == ElementName(k, members[k]) ==> n == k)
    case List(member, _, _) => Unflattened(m, member)
    case Map(key, value, _) => Unflattened(m, value) && ElementName("key", key) != ElementName("value", value)
    case _ => true
  }

  /** Wire names are distinct and not reserved, and nothing is bound to an attribute. */
  ghost predicate WellWired(m: Decodable) { forall n :: n in m.shapes ==> WellWiredShape(m, m.shapes[n]) }

  ghost predicate DistinctTrimmed(fields: map<string, Value>) {
    forall j, k :: j in fields && k in fields && TrimSpace(j) == TrimSpace(k) ==> j == k
  }

  /** The value is of its shape, flattened collections are not empty and flattened by reference, and map keys differ in more than outer space. */
  ghost predicate Fits(m: Decodable, ref: ShapeRef, v: Value)
    decreases v
  {
    ref.shape in m.shapes &&
      match m.shapes[ref.shape]
      case Structure(_, members, _) => v.Fields? && forall n :: n in v.fields ==> n in members && Fits(m, members[n], v.fields[n])
      case List(member, _, _) =>
        v.Items? && FlatAgrees(m, ref) && (ref.flattened ==> v.items != []) && forall i :: 0 <= i < |v.items| ==> Fits(m, member, v.items[i])
      case Map(_, value, _) =>
        && v.Fields? && FlatAgrees(m, ref) && (ref.flattened ==> v.fields != map[]) && DistinctTrimmed(v.fields)
        && forall k :: k in v.fields ==> Fits(m, value, v.fields[k])
      case _ => ScalarText(v).Some?
  }

  /** `w` is `v` with scalars and map keys as trimmed text. */
  ghost predicate Trims(m: Decodable, name: string, v: Value, w: Value)
    decreases v
  {
    name in m.shapes &&
      match m.shapes[name]
      case Structure(_, members, _) =>
        && v.Fields? && w.Fields? && w.fields.Keys == v.fields.Keys
        && forall n :: n in v.fields ==> n in members && Trims(m, members[n].shape, v.fields[n], w.fields[n])
      case List(member, _, _) =>
        v.Items? && w.Items? && |w.items| == |v.items| && forall i :: 0 <= i < |v.items| ==> Trims(m, member.shape, v.items[i], w.items[i])
      case Map(_, value, _) =>
        && v.Fields? && w.Fields? && (forall k :: k in w.fields ==> exists j :: j in v.fields && TrimSpace(j) == k)
        && forall k :: k in v.fields ==> TrimSpace(k) in w.fields && Trims(m, value.shape, v.fields[k], w.fields[TrimSpace(k)])
      case _ => ScalarText(v).Some? && w == Text(TrimSpace(ScalarText(v).value))
  }

  // The round trip.

  /** What holds of the elements a value is encoded as. */
  ghost predicate Returns(m: Decodable, name: string, ref: ShapeRef, v: Value) {
    match Encode(m, name, ref, v)
    case None => false
    case Some(nodes) =>
      && nodes != []
      && (forall i :: 0 <= i < |nodes| ==> nodes[i].name == name)
      && Trims(m, ref.shape, v, Normalize(m, ref.shape, nodes, ref.flattened))
      && (Unflattened(m, ref) ==> |nodes| == 1 && Trims(m, ref.shape, v, Normalize(m, ref.shape, nodes, false)))
  }

  /** Decoding what a value is encoded as gives the value back, with scalars as trimmed text. */
  lemma {:induction false} RoundTrip(m: Decodable, name: string, ref: ShapeRef, v: Value)
    requires WellWired(m) && Fits(m, ref, v)
    ensures Returns(m, name, ref, v)
    decreases v
  {
    hide Returns;
    assert WellWiredShape(m, m.shapes[ref.shape]);
    match m.shapes[ref.shape]
    case Structure(_, members, _) =>
      forall n | n in v.fields ensures Returns(m, ElementName(n, members[n]), members[n], v.fields[n]) {
        RoundTrip(m, ElementName(n, members[n]), members[n], v.fields[n]);
      }
      StructureReturns(m, name, ref, v);
    case List(member, _, _) =>
      var item := if ref.flattened then name else ElementName("member", member);
      forall i | 0 <= i < |v.items| ensures Returns(m, item, member, v.items[i]) { RoundTrip(m, item, member, v.items[i]); }
      ListReturns(m, name, ref, v, item);
    case Map(key, value, _) =>
      forall k | k in v.fields ensures Returns(m, ElementName("value", value), value, v.fields[k]) {
        RoundTrip(m, ElementName("value", value), value, v.fields[k]);
      }
      MapReturns(m, name, ref, v);
    case Str(_) => ScalarReturns(m, name, ref, v);
    case Leaf(_) => ScalarReturns(m, name, ref, v);
  }

  lemma ScalarReturns(m: Decodable, name: string, ref: ShapeRef, v: Value)
    requires ref.shape in m.shapes && (m.shapes[ref.shape].Str? || m.shapes[ref.shape].Leaf?) && ScalarText(v).Some?
    ensures Returns(m, name, ref, v)
  {
  }

  // Lists.

  /** The element that stands for a value. */
  ghost predicate StandsFor(m: Decodable, name: string, ref: ShapeRef, v: Value, node: Node) {
    node.name == name && Trims(m, ref.shape, v, Normalize(m, ref.shape, [node], false))
  }

  lemma OneElement(m: Decodable, name: string, ref: ShapeRef, v: Value)
    requires Returns(m, name, ref, v) && Unflattened(m, ref)
    ensures Encode(m, name, ref, v).Some? && |Encode(m, name, ref, v).value| == 1
    ensures StandsFor(m, name, ref, v, Encode(m, name, ref, v).value[0])
  {
    hide Encode, Normalize, Trims;
    var nodes := Encode(m, name, ref, v).value;
    assert nodes == [nodes[0]];
  }

  lemma {:induction false} ItemsEncode(m: Decodable, name: string, ref: ShapeRef, n: nat, v: Value)
    requires v.Items? && n <= |v.items| && Unflattened(m, ref) && forall i :: 0 <= i < n ==> Returns(m, name, ref, v.items[i])
    ensures EncodeItems(m, name, ref, n, v).Some? && |EncodeItems(m, name, ref, n, v).value| == n
    ensures forall i :: 0 <= i < n ==> StandsFor(m, name, ref, v.items[i], EncodeItems(m, name, ref, n, v).value[i])
  {
    hide Returns, Encode, StandsFor, Unflattened;
    if n > 0 {
      ItemsEncode(m, name, ref, n - 1, v);
      OneElement(m, name, ref, v.items[n - 1]);
    }
  }

  lemma {:induction false} EachNormalized(m: Decodable, name: string, nodes: seq<Node>, n: nat)
    requires n <= |nodes| && name !in m.flattened
    ensures |NormalizeEach(m, name, nodes, n)| == n
    ensures forall i :: 0 <= i < n ==> NormalizeEach(m, name, nodes, n)[i] == Normalize(m, name, [nodes[i]], false)
  {
    hide Normalize;
    if n > 0 { EachNormalized(m, name, nodes, n - 1); }
  }

  lemma {:induction false} NamedAll(nodes: seq<Node>, name: string)
    requires forall i :: 0 <= i < |nodes| ==> nodes[i].name == name
    ensures Named(nodes, name) == nodes
  {
    if nodes != [] { NamedAll(nodes[..|nodes| - 1], name); }
  }

  lemma {:induction false} NamedNone(nodes: seq<Node>, name: string)
    requires forall i :: 0 <= i < |nodes| ==> nodes[i].name != name
    ensures Named(nodes, name) == []
  {
    if nodes != [] { NamedNone(nodes[..|nodes| - 1], name); }
  }

  lemma {:induction false} NamedAppend(a: seq<Node>, b: seq<Node>, name: string)
    ensures Named(a + b, name) == Named(a, name) + Named(b, name)
  {
    hide Sizes, Size;
    if b == [] {
      assert a + b == a && Named(a, name) + [] == Named(a, name);
    } else {
      var front, last, all := b[..|b| - 1], b[|b| - 1], a + b;
      NamedAppend(a, front, name);
      assert all[..|all| - 1] == a + front && all[|all| - 1] == last;
      assert Named(a, name) + (Named(front, name) + [last]) == Named(a, name) + Named(front, name) + [last];
    }
  }

  lemma ListReturns(m: Decodable, name: string, ref: ShapeRef, v: Value, item: string)
    requires ref.shape in m.shapes && m.shapes[ref.shape].List? && v.Items? && FlatAgrees(m, ref) && (ref.flattened ==> v.items != [])
    requires Unflattened(m, m.shapes[ref.shape].member) && item == if ref.flattened then name else ElementName("member", m.shapes[ref.shape].member)
    requires forall i :: 0 <= i < |v.items| ==> Returns(m, item, m.shapes[ref.shape].member, v.items[i])
    ensures Returns(m, name, ref, v)
  {
    var member := m.shapes[ref.shape].member;
    ItemsEncode(m, item, member, |v.items|, v);
    var nodes := EncodeItems(m, item, member, |v.items|, v).value;
    EachNormalized(m, member.shape, nodes, |nodes|);
    var out := Items(NormalizeEach(m, member.shape, nodes, |nodes|));
    hide EncodeItems, NormalizeEach, Returns, Unflattened;
    ItemsTrim(m, ref.shape, v, out, nodes, item);
    if !ref.flattened {
      NamedAll(nodes, item);
      var wrapper := Node(name, [], "", nodes);
      assert Normalize(m, ref.shape, [wrapper], false) == out;
      WrappedReturns(m, name, ref, v, wrapper);
    } else {
      assert Normalize(m, ref.shape, nodes, true) == out;
      FlattenedReturns(m, name, ref, v, nodes);
    }
  }

  lemma WrappedReturns(m: Decodable, name: string, ref: ShapeRef, v: Value, wrapper: Node)
    requires !ref.flattened && wrapper.name == name && Encode(m, name, ref, v) == Some([wrapper]) && Trims(m, ref.shape, v, Normalize(m, ref.shape, [wrapper], false))
    ensures Returns(m, name, ref, v)
  {
  }

  lemma FlattenedReturns(m: Decodable, name: string, ref: ShapeRef, v: Value, nodes: seq<Node>)
    requires ref.flattened && IsCollection(m, ref.shape) && nodes != [] && forall i :: 0 <= i < |nodes| ==> nodes[i].name == name
    requires Encode(m, name, ref, v) == Some(nodes) && Trims(m, ref.shape, v, Normalize(m, ref.shape, nodes, true))
    ensures Returns(m, name, ref, v)
  {
  }

  lemma ItemsTrim(m: Decodable, name: string, v: Value, out: Value, nodes: seq<Node>, item: string)
    requires name in m.shapes && m.shapes[name].List? && v.Items? && out.Items? && |out.items| == |v.items| == |nodes|
    requires forall i :: 0 <= i < |nodes| ==> StandsFor(m, item, m.shapes[name].member, v.items[i], nodes[i])
    requires forall i :: 0 <= i < |nodes| ==> out.items[i] == Normalize(m, m.shapes[name].member.shape, [nodes[i]], false)
    ensures Trims(m, name, v, out)
  {
    hide Normalize;
    forall i | 0 <= i < |v.items| ensures Trims(m, m.shapes[name].member.shape, v.items[i], out.items[i]) {
      assert StandsFor(m, item, m.shapes[name].member, v.items[i], nodes[i]);
    }
  }

  // Maps.

  ghost predicate EntryFor(m: Decodable, name: string, key: ShapeRef, value: ShapeRef, k: string, v: Value, entry: Node) {
    && entry.name == name && |entry.children| == 2
    && entry.children[0] == Node(ElementName("key", key), [], k, [])
    && StandsFor(m, ElementName("value", value), value, v, entry.children[1])
  }

  lemma {:induction false} EntriesEncode(m: Decodable, name: string, key: ShapeRef, value: ShapeRef, keys: seq<string>, v: Value)
    requires v.Fields? && Unflattened(m, value)
    requires forall k :: k in keys ==> k in v.fields
    requires forall k :: k in v.fields ==> Returns(m, ElementName("value", value), value, v.fields[k])
    ensures EncodeEntries(m, name, key, value, keys, v).Some? && |EncodeEntries(m, name, key, value, keys, v).value| == |keys|
    ensures forall i :: 0 <= i < |keys| ==> EntryFor(m, name, key, value, keys[i], v.fields[keys[i]], EncodeEntries(m, name, key, value, keys, v).value[i])
  {
    hide Returns, Encode, StandsFor, Unflattened, ElementName;
    if keys != [] {
      var front, k := keys[..|keys| - 1], keys[|keys| - 1];
      EntriesEncode(m, name, key, value, front, v);
      OneElement(m, ElementName("value", value), value, v.fields[k]);
      var last := EncodeEntry(m, name, key, value, k, v).value;
      assert EntryFor(m, name, key, value, k, v.fields[k], last[0]);
    }
  }

  lemma EntryRead(m: Decodable, name: string, key: ShapeRef, value: ShapeRef, k: string, v: Value, entry: Node)
    requires EntryFor(m, name, key, value, k, v, entry) && ElementName("key", key) != ElementName("value", value)
    ensures First(entry.children, ElementName("key", key)) == Some(entry.children[0])
    ensures First(entry.children, ElementName("value", value)) == Some(entry.children[1])
  {
    hide Normalize, Trims;
    assert entry.children[1..][0] == entry.children[1];
  }

  lemma EntryAdds(m: Decodable, name: string, key: ShapeRef, value: ShapeRef, k: string, v: Value, entries: seq<Node>, n: nat) returns (w: Value)
    requires 0 < n <= |entries| && EntryFor(m, name, key, value, k, v, entries[n - 1]) && ElementName("key", key) != ElementName("value", value)
    ensures NormalizeEntries(m, key, value, entries, n) == NormalizeEntries(m, key, value, entries, n - 1)[TrimSpace(k) := w]
    ensures Trims(m, value.shape, v, w)
  {
    hide Normalize, Trims, First, ElementName, TrimSpace;
    EntryRead(m, name, key, value, k, v, entries[n - 1]);
    w := Normalize(m, value.shape, [entries[n - 1].children[1]], false);
  }

  ghost predicate FromKey(fields: map<string, Value>, t: string) { exists j :: j in fields && TrimSpace(j) == t }

  /** `out` maps the trimmed keys to their values, and nothing else. */
  ghost predicate ReadBack(m: Decodable, shape: string, keys: seq<string>, v: Value, out: map<string, Value>) {
    && v.Fields? && (forall t :: t in out ==> FromKey(v.fields, t))
    && forall i :: 0 <= i < |keys| ==> keys[i] in v.fields && TrimSpace(keys[i]) in out && Trims(m, shape, v.fields[keys[i]], out[TrimSpace(keys[i])])
  }

  lemma ReadBackStep(m: Decodable, shape: string, keys: seq<string>, k: string, v: Value, out: map<string, Value>, w: Value)
    requires ReadBack(m, shape, keys, v, out) && k in v.fields && k !in keys && DistinctTrimmed(v.fields) && Trims(m, shape, v.fields[k], w)
    ensures ReadBack(m, shape, keys + [k], v, out[TrimSpace(k) := w])
  {
    hide Trims, TrimSpace;
    assert FromKey(v.fields, TrimSpace(k));
    var all, more := keys + [k], out[TrimSpace(k) := w];
    forall i | 0 <= i < |all| ensures all[i] in v.fields && TrimSpace(all[i]) in more && Trims(m, shape, v.fields[all[i]], more[TrimSpace(all[i])]) {
      if i < |keys| { assert all[i] == keys[i] && keys[i] in keys; }
    }
  }

  ghost predicate EntryOf(m: Decodable, name: string, key: ShapeRef, value: ShapeRef, v: Value, k: string, entry: Node) {
    v.Fields? && k in v.fields && EntryFor(m, name, key, value, k, v.fields[k], entry)
  }

  /** Entries read back as the map from trimmed keys. */
  lemma {:induction false} EntriesRead(m: Decodable, name: string, key: ShapeRef, value: ShapeRef, keys: seq<string>, v: Value, entries: seq<Node>, n: nat)
    requires v.Fields? && n <= |entries| == |keys| && ElementName("key", key) != ElementName("value", value) && DistinctTrimmed(v.fields)
    requires forall i, j :: 0 <= i < j < |keys| ==> keys[i] != keys[j]
    requires forall i :: 0 <= i < |keys| ==> EntryOf(m, name, key, value, v, keys[i], entries[i])
    ensures ReadBack(m, value.shape, keys[..n], v, NormalizeEntries(m, key, value, entries, n))
  {
    hide NormalizeEntries, EntryOf, ElementName, DistinctTrimmed, ReadBack;
    if n == 0 {
      NothingRead(m, key, value, v, entries);
      assert keys[..0] == [];
    } else {
      EntriesRead(m, name, key, value, keys, v, entries, n - 1);
      EntryReadsBack(m, name, key, value, keys[..n - 1], keys[n - 1], v, entries, n);
      assert keys[..n] == keys[..n - 1] + [keys[n - 1]];
    }
  }

  lemma NothingRead(m: Decodable, key: ShapeRef, value: ShapeRef, v: Value, entries: seq<Node>)
    requires v.Fields?
    ensures ReadBack(m, value.shape, [], v, NormalizeEntries(m, key, value, entries, 0))
  {
    hide Trims;
  }

  lemma EntryReadsBack(m: Decodable, name: string, key: ShapeRef, value: ShapeRef, keys: seq<string>, k: string, v: Value, entries: seq<Node>, n: nat)
    requires 0 < n <= |entries| && EntryOf(m, name, key, value, v, k, entries[n - 1]) && DistinctTrimmed(v.fields)
    requires k !in keys && ElementName("key", key) != ElementName("value", value)
    requires ReadBack(m, value.shape, keys, v, NormalizeEntries(m, key, value, entries, n - 1))
    ensures ReadBack(m, value.shape, keys + [k], v, NormalizeEntries(m, key, value, entries, n))
  {
    hide NormalizeEntries, EntryFor, ElementName, DistinctTrimmed, ReadBack, Trims;
    var w := EntryAdds(m, name, key, value, k, v.fields[k], entries, n);
    ReadBackStep(m, value.shape, keys, k, v, NormalizeEntries(m, key, value, entries, n - 1), w);
  }

  lemma MapNodes(m: Decodable, name: string, shape: string, v: Value) returns (nodes: seq<Node>)
    requires shape in m.shapes && m.shapes[shape].Map? && v.Fields? && DistinctTrimmed(v.fields) && WellWiredShape(m, m.shapes[shape])
    requires forall k :: k in v.fields ==> Returns(m, ElementName("value", m.shapes[shape].value), m.shapes[shape].value, v.fields[k])
    ensures EncodeEntries(m, name, m.shapes[shape].key, m.shapes[shape].value, SortedKeys(v.fields.Keys), v) == Some(nodes)
    ensures v.fields != map[] ==> nodes != []
    ensures forall i :: 0 <= i < |nodes| ==> nodes[i].name == name
    ensures Trims(m, shape, v, Fields(NormalizeEntries(m, m.shapes[shape].key, m.shapes[shape].value, nodes, |nodes|)))
  {
    hide WellWiredShape, Normalize, Encode, Trims, SortedKeys, Returns, EncodeEntries, NormalizeEntries, EntryFor, ReadBack, DistinctTrimmed, Unflattened, ElementName;
    MapWired(m, shape);
    var key, value, keys := m.shapes[shape].key, m.shapes[shape].value, SortedKeys(v.fields.Keys);
    EntriesEncode(m, name, key, value, keys, v);
    nodes := EncodeEntries(m, name, key, value, keys, v).value;
    if v.fields != map[] { NotEmpty(v.fields); }
    forall i | 0 <= i < |nodes| ensures nodes[i].name == name { EntryName(m, name, key, value, keys[i], v.fields[keys[i]], nodes[i]); }
    MapRead(m, name, shape, v, nodes);
  }

  lemma MapWired(m: Decodable, shape: string)
    requires shape in m.shapes && m.shapes[shape].Map? && WellWiredShape(m, m.shapes[shape])
    ensures Unflattened(m, m.shapes[shape].value) && ElementName("key", m.shapes[shape].key) != ElementName("value", m.shapes[shape].value)
  {
  }

  lemma MapRead(m: Decodable, name: string, shape: string, v: Value, nodes: seq<Node>)
    requires shape in m.shapes && m.shapes[shape].Map? && v.Fields? && DistinctTrimmed(v.fields) && |nodes| == |SortedKeys(v.fields.Keys)|
    requires ElementName("key", m.shapes[shape].key) != ElementName("value", m.shapes[shape].value)
    requires forall i :: 0 <= i < |nodes| ==>
      EntryFor(m, name, m.shapes[shape].key, m.shapes[shape].value, SortedKeys(v.fields.Keys)[i], v.fields[SortedKeys(v.fields.Keys)[i]], nodes[i])
    ensures Trims(m, shape, v, Fields(NormalizeEntries(m, m.shapes[shape].key, m.shapes[shape].value, nodes, |nodes|)))
  {
    hide Trims, SortedKeys, NormalizeEntries, EntryFor, ReadBack, DistinctTrimmed, ElementName;
    var key, value, keys := m.shapes[shape].key, m.shapes[shape].value, SortedKeys(v.fields.Keys);
    SortedKeysDistinct(v.fields.Keys);
    EntriesRead(m, name, key, value, keys, v, nodes, |nodes|);
    assert keys[..|nodes|] == keys;
    MapTrims(m, shape, v, Fields(NormalizeEntries(m, key, value, nodes, |nodes|)), keys);
  }

  lemma MapReturns(m: Decodable, name: string, ref: ShapeRef, v: Value)
    requires ref.shape in m.shapes && m.shapes[ref.shape].Map? && v.Fields? && FlatAgrees(m, ref) && (ref.flattened ==> v.fields != map[]) && DistinctTrimmed(v.fields)
    requires WellWiredShape(m, m.shapes[ref.shape])
    requires forall k :: k in v.fields ==> Returns(m, ElementName("value", m.shapes[ref.shape].value), m.shapes[ref.shape].value, v.fields[k])
    ensures Returns(m, name, ref, v)
  {
    hide EncodeEntries, NormalizeEntries, Returns, Unflattened, SortedKeys, Trims, WellWiredShape, DistinctTrimmed;
    if ref.flattened {
      var nodes := MapNodes(m, name, ref.shape, v);
      FlattenedReturns(m, name, ref, v, nodes);
    } else {
      var nodes := MapNodes(m, "entry", ref.shape, v);
      NamedAll(nodes, "entry");
      WrappedReturns(m, name, ref, v, Node(name, [], "", nodes));
    }
  }

  lemma EntryName(m: Decodable, name: string, key: ShapeRef, value: ShapeRef, k: string, v: Value, entry: Node)
    requires EntryFor(m, name, key, value, k, v, entry)
    ensures entry.name == name
  {
  }

  lemma NotEmpty(fields: map<string, Value>)
    requires fields != map[]
    ensures SortedKeys(fields.Keys) != []
  {
    var k :| k in fields;
    assert k in SortedKeys(fields.Keys);
  }

  lemma MapTrims(m: Decodable, name: string, v: Value, out: Value, keys: seq<string>)
    requires name in m.shapes && m.shapes[name].Map? && v.Fields? && out.Fields? && forall k :: k in keys <==> k in v.fields
    requires ReadBack(m, m.shapes[name].value.shape, keys, v, out.fields)
    ensures Trims(m, name, v, out)
  {
    forall k | k in v.fields ensures TrimSpace(k) in out.fields && Trims(m, m.shapes[name].value.shape, v.fields[k], out.fields[TrimSpace(k)]) {
      assert k in keys;
      var i :| 0 <= i < |keys| && keys[i] == k;
    }
    forall t | t in out.fields ensures exists j :: j in v.fields && TrimSpace(j) == t { assert FromKey(v.fields, t); }
  }

  // Structures.

  /** Some member among `names` has the wire name. */
  ghost predicate WireOf(members: map<string, ShapeRef>, names: seq<string>, wire: string) {
    exists n :: n in names && n in members && wire == ElementName(n, members[n])
  }

  /** The member's elements are those of its wire name. */
  ghost predicate Grouped(m: Decodable, members: map<string, ShapeRef>, n: string, v: Value, nodes: seq<Node>) {
    n in members && v.Fields? && n in v.fields &&
      Encode(m, ElementName(n, members[n]), members[n], v.fields[n]) == Some(Named(nodes, ElementName(n, members[n])))
  }

  ghost predicate AllGrouped(m: Decodable, members: map<string, ShapeRef>, names: seq<string>, v: Value, nodes: seq<Node>) {
    && (forall n :: n in names ==> Grouped(m, members, n, v, nodes))
    && (forall i :: 0 <= i < |nodes| ==> WireOf(members, names, nodes[i].name))
  }

  lemma {:induction false} FieldsEncode(m: Decodable, members: map<string, ShapeRef>, names: seq<string>, v: Value)
    requires v.Fields? && WellWiredShape(m, Structure([], members, false))
    requires forall n :: n in names ==> n in v.fields && n in members && Returns(m, ElementName(n, members[n]), members[n], v.fields[n])
    requires forall i, j :: 0 <= i < j < |names| ==> names[i] != names[j]
    ensures EncodeFields(m, members, names, v).Some? && EncodeFields(m, members, names, v).value.attrs == []
    ensures AllGrouped(m, members, names, v, EncodeFields(m, members, names, v).value.nodes)
  {
    hide Normalize, Trims, Encode, IsTransportMetadata, ElementName, AllGrouped;
    if names == [] {
      NothingGrouped(m, members, v);
    } else {
      var front, last := names[..|names| - 1], names[|names| - 1];
      assert names == front + [last];
      FieldsEncode(m, members, front, v);
      var before, wire := EncodeFields(m, members, front, v).value.nodes, ElementName(last, members[last]);
      assert Returns(m, wire, members[last], v.fields[last]);
      GroupedStep(m, members, front, last, v, before, Encode(m, wire, members[last], v.fields[last]).value);
    }
  }

  lemma NothingGrouped(m: Decodable, members: map<string, ShapeRef>, v: Value)
    ensures AllGrouped(m, members, [], v, [])
  {
  }

  lemma GroupedStep(m: Decodable, members: map<string, ShapeRef>, front: seq<string>, last: string, v: Value, before: seq<Node>, added: seq<Node>)
    requires v.Fields? && WellWiredShape(m, Structure([], members, false)) && last !in front && last in members && last in v.fields
    requires AllGrouped(m, members, front, v, before)
    requires Encode(m, ElementName(last, members[last]), members[last], v.fields[last]) == Some(added)
    requires forall i :: 0 <= i < |added| ==> added[i].name == ElementName(last, members[last])
    ensures AllGrouped(m, members, front + [last], v, before + added)
  {
    hide Encode, IsTransportMetadata, ElementName, Named;
    var names, nodes := front + [last], before + added;
    forall n | n in names ensures Grouped(m, members, n, v, nodes) {
      if n == last { LastGrouped(m, members, front, last, v, before, added); } else { StillGrouped(m, members, n, last, v, before, added); }
    }
    forall i | 0 <= i < |nodes| ensures WireOf(members, names, nodes[i].name) {
      if i < |before| {
        assert WireOf(members, front, before[i].name);
      } else {
        assert last in names;
      }
    }
  }

  lemma LastGrouped(m: Decodable, members: map<string, ShapeRef>, front: seq<string>, last: string, v: Value, before: seq<Node>, added: seq<Node>)
    requires v.Fields? && WellWiredShape(m, Structure([], members, false)) && last !in front && last in members && last in v.fields
    requires forall i :: 0 <= i < |before| ==> WireOf(members, front, before[i].name)
    requires Encode(m, ElementName(last, members[last]), members[last], v.fields[last]) == Some(added)
    requires forall i :: 0 <= i < |added| ==> added[i].name == ElementName(last, members[last])
    ensures Grouped(m, members, last, v, before + added)
  {
    hide Encode, IsTransportMetadata, ElementName, Named;
    var wire := ElementName(last, members[last]);
    forall i | 0 <= i < |before| ensures before[i].name != wire { assert WireOf(members, front, before[i].name); }
    NamedAll(added, wire);
    NamedNone(before, wire);
    NamedAppend(before, added, wire);
    assert [] + added == added;
  }

  lemma StillGrouped(m: Decodable, members: map<string, ShapeRef>, n: string, last: string, v: Value, before: seq<Node>, added: seq<Node>)
    requires WellWiredShape(m, Structure([], members, false)) && last in members && n != last && Grouped(m, members, n, v, before)
    requires forall i :: 0 <= i < |added| ==> added[i].name == ElementName(last, members[last])
    ensures Grouped(m, members, n, v, before + added)
  {
    hide Encode, IsTransportMetadata, ElementName, Named;
    var wire := ElementName(n, members[n]);
    NamedAppend(before, added, wire);
    NamedNone(added, wire);
    assert Named(before, wire) + [] == Named(before, wire);
  }

  /** A structure's elements read back as its fields. */
  lemma DocumentRead(m: Decodable, members: map<string, ShapeRef>, names: seq<string>, v: Value, node: Node)
    requires v.Fields? && WellWiredShape(m, Structure([], members, false)) && AllGrouped(m, members, names, v, node.children)
    requires forall n :: n in names <==> n in v.fields
    requires forall n :: n in v.fields ==> n in members && Returns(m, ElementName(n, members[n]), members[n], v.fields[n])
    ensures Document(m, members, node).Keys == v.fields.Keys
    ensures forall n :: n in v.fields ==> Trims(m, members[n].shape, v.fields[n], Document(m, members, node)[n])
  {
    hide Encode, Normalize, Trims, Returns, AllGrouped, WellWiredShape, ElementName, Group, MemberValue, Bound, ChildNames, TrimSpace;
    AllGroupedBound(m, members, names, v, node);
    forall n | n in members ensures Group(node, ElementName(n, members[n])) != [] <==> n in v.fields { MemberRead(m, members, names, v, node, n); }
    forall n | n in v.fields ensures Trims(m, members[n].shape, v.fields[n], MemberValue(m, n, members[n], node)) { MemberRead(m, members, names, v, node, n); }
  }

  lemma AllGroupedBound(m: Decodable, members: map<string, ShapeRef>, names: seq<string>, v: Value, node: Node)
    requires AllGrouped(m, members, names, v, node.children)
    ensures forall w :: w in ChildNames(node.children) ==> Bound(members, w)
  {
    hide Grouped, WireOf, Bound, ChildNames;
    AllBound(members, names, node);
  }

  lemma AllBound(members: map<string, ShapeRef>, names: seq<string>, node: Node)
    requires forall i :: 0 <= i < |node.children| ==> WireOf(members, names, node.children[i].name)
    ensures forall w :: w in ChildNames(node.children) ==> Bound(members, w)
  {
    hide ElementName;
    forall w | w in ChildNames(node.children) ensures Bound(members, w) {
      var c :| c in node.children && c.name == w;
      var i :| 0 <= i < |node.children| && node.children[i] == c;
      assert WireOf(members, names, node.children[i].name);
    }
  }

  lemma MemberRead(m: Decodable, members: map<string, ShapeRef>, names: seq<string>, v: Value, node: Node, n: string)
    requires v.Fields? && WellWiredShape(m, Structure([], members, false)) && AllGrouped(m, members, names, v, node.children) && n in members
    requires forall k :: k in names <==> k in v.fields
    requires n in v.fields ==> Returns(m, ElementName(n, members[n]), members[n], v.fields[n])
    ensures Group(node, ElementName(n, members[n])) != [] <==> n in v.fields
    ensures n in v.fields ==> Trims(m, members[n].shape, v.fields[n], MemberValue(m, n, members[n], node))
  {
    hide Encode, IsTransportMetadata, ElementName, Normalize, Trims, FlatRef, Unflattened;
    var wire := ElementName(n, members[n]);
    assert !IsTransportMetadata(wire);
    if n in v.fields {
      assert Grouped(m, members, n, v, node.children);
      ShapeFlagImplied(m, members[n], Group(node, wire));
    } else {
      forall i | 0 <= i < |node.children| ensures node.children[i].name != wire { assert WireOf(members, names, node.children[i].name); }
      NamedNone(node.children, wire);
    }
  }

  lemma StructureReturns(m: Decodable, name: string, ref: ShapeRef, v: Value)
    requires ref.shape in m.shapes && m.shapes[ref.shape].Structure? && v.Fields? && WellWiredShape(m, m.shapes[ref.shape])
    requires forall n :: n in v.fields ==>
      n in m.shapes[ref.shape].members && Returns(m, ElementName(n, m.shapes[ref.shape].members[n]), m.shapes[ref.shape].members[n], v.fields[n])
    ensures Returns(m, name, ref, v)
  {
    var members, names := m.shapes[ref.shape].members, SortedKeys(v.fields.Keys);
    assert WellWiredShape(m, Structure([], members, false));
    hide SortedKeys, Returns, EncodeFields, WellWiredShape, AllGrouped, Document;
    SortedKeysDistinct(v.fields.Keys);
    FieldsEncode(m, members, names, v);
    var node := Node(name, [], "", EncodeFields(m, members, names, v).value.nodes);
    DocumentRead(m, members, names, v, node);
    StructureRead(m, name, ref, v, node);
  }

  lemma StructureRead(m: Decodable, name: string, ref: ShapeRef, v: Value, node: Node)
    requires ref.shape in m.shapes && m.shapes[ref.shape].Structure? && v.Fields? && node.name == name && Encode(m, name, ref, v) == Some([node])
    requires Document(m, m.shapes[ref.shape].members, node).Keys == v.fields.Keys
    requires forall n :: n in v.fields ==>
      n in m.shapes[ref.shape].members && Trims(m, m.shapes[ref.shape].members[n].shape, v.fields[n], Document(m, m.shapes[ref.shape].members, node)[n])
    ensures Returns(m, name, ref, v)
  {
    hide Document, Encode;
  }

  // Values the round trip leaves as they are.

  /** Scalars and map keys are text without outer space. */
  ghost predicate IsTrimmed(m: Decodable, name: string, v: Value)
    decreases v
  {
    name in m.shapes &&
      match m.shapes[name]
      case Structure(_, members, _) => v.Fields? ==> forall n :: n in v.fields && n in members ==> IsTrimmed(m, members[n].shape, v.fields[n])
      case List(member, _, _) => v.Items? ==> forall i :: 0 <= i < |v.items| ==> IsTrimmed(m, member.shape, v.items[i])
      case Map(_, value, _) => v.Fields? ==> forall k :: k in v.fields ==> TrimSpace(k) == k && IsTrimmed(m, value.shape, v.fields[k])
      case _ => v.Text? && TrimSpace(v.text) == v.text
  }

  lemma {:induction false} TrimsNothing(m: Decodable, name: string, v: Value, w: Value)
    requires IsTrimmed(m, name, v) && Trims(m, name, v, w)
    ensures w == v
    decreases v
  {
    hide TrimSpace;
    match m.shapes[name]
    case Structure(_, members, _) =>
      forall n | n in v.fields ensures w.fields[n] == v.fields[n] { TrimsNothing(m, members[n].shape, v.fields[n], w.fields[n]); }
      assert w.fields == v.fields;
    case List(member, _, _) =>
      forall i | 0 <= i < |v.items| ensures w.items[i] == v.items[i] { TrimsNothing(m, member.shape, v.items[i], w.items[i]); }
      assert w.items == v.items;
    case Map(_, value, _) =>
      forall k | k in v.fields ensures k in w.fields && w.fields[k] == v.fields[k] { TrimsNothing(m, value.shape, v.fields[k], w.fields[k]); }
      assert w.fields == v.fields;
    case Str(_) =>
    case Leaf(_) =>
  }

  /** A value of trimmed text comes back exactly as it was. */
  lemma ExactRoundTrip(m: Decodable, name: string, ref: ShapeRef, v: Value)
    requires WellWired(m) && Fits(m, ref, v) && IsTrimmed(m, ref.shape, v)
    ensures Encode(m, name, ref, v).Some?
    ensures Normalize(m, ref.shape, Encode(m, name, ref, v).value, ref.flattened) == v
  {
    hide Encode, Normalize, Trims, IsTrimmed, WellWired, Fits;
    RoundTrip(m, name, ref, v);
    TrimsNothing(m, ref.shape, v, Normalize(m, ref.shape, Encode(m, name, ref, v).value, ref.flattened));
  }

  /** A list of a flattened shape under a reference that is not comes back as one item, whatever its length. */
  lemma FlatMismatch(m: Decodable, name: string, ref: ShapeRef, v: Value)
    requires ref.shape in m.shapes && m.shapes[ref.shape].List? && v.Items? && ref.shape in m.flattened && !ref.flattened
    requires Encode(m, name, ref, v).Some?
    ensures Normalize(m, ref.shape, Encode(m, name, ref, v).value, FlatRef(m, ref)).Items?
    ensures |Normalize(m, ref.shape, Encode(m, name, ref, v).value, FlatRef(m, ref)).items| == 1
    ensures |v.items| != 1 ==> !Returns(m, name, ref, v)
  {
    hide EncodeItems, NormalizeEach;
    var nodes := Encode(m, name, ref, v).value;
    EachNormalized(m, m.shapes[ref.shape].member.shape, nodes, |nodes|);
  }

  // Names on the wire.

  /** The elements or the attribute of member `n`, under the location name of its reference if it has one and its own name otherwise. */
  ghost predicate Written(m: Model, n: string, ref: ShapeRef, v: Value, part: Part) {
    var wire := if ref.locationName == "" then n else ref.locationName;
    if ref.xmlAttribute
    then ScalarText(v).Some? && part == Part([(wire, ScalarText(v).value)], [])
    else Encode(m, wire, ref, v).Some? && part == Part([], Encode(m, wire, ref, v).value)
  }

  /** All elements of an encoded value bear the name it is encoded under. */
  lemma {:induction false} EncodedName(m: Model, name: string, ref: ShapeRef, v: Value)
    requires Encode(m, name, ref, v).Some?
    ensures forall i :: 0 <= i < |Encode(m, name, ref, v).value| ==> Encode(m, name, ref, v).value[i].name == name
    decreases v, 1, 0
  {
    match m.shapes[ref.shape]
    case List(member, _, _) => if ref.flattened { ItemsNamed(m, name, member, |v.items|, v); }
    case Map(key, value, _) => if ref.flattened { EntriesNamed(m, name, key, value, SortedKeys(v.fields.Keys), v); }
    case _ =>
  }

  lemma {:induction false} ItemsNamed(m: Model, name: string, ref: ShapeRef, n: nat, v: Value)
    requires v.Items? && n <= |v.items| && EncodeItems(m, name, ref, n, v).Some?
    ensures forall i :: 0 <= i < |EncodeItems(m, name, ref, n, v).value| ==> EncodeItems(m, name, ref, n, v).value[i].name == name
    decreases v, 0, n
  {
    if n > 0 {
      ItemsNamed(m, name, ref, n - 1, v);
      EncodedName(m, name, ref, v.items[n - 1]);
      hide Encode;
    }
  }

  /** One entry: its key as text under the key's name, then the value under the value's. */
  ghost predicate EntryNamed(key: ShapeRef, value: ShapeRef, v: Value, entry: Node)
    requires v.Fields?
  {
    && entry.children != []
    && entry.children[0].name == (if key.locationName == "" then "key" else key.locationName) && entry.children[0].text in v.fields
    && forall i :: 1 <= i < |entry.children| ==> entry.children[i].name == if value.locationName == "" then "value" else value.locationName
  }

  lemma {:induction false} EntriesNamed(m: Model, name: string, key: ShapeRef, value: ShapeRef, keys: seq<string>, v: Value)
    requires v.Fields? && (forall k :: k in keys ==> k in v.fields) && EncodeEntries(m, name, key, value, keys, v).Some?
    ensures var entries := EncodeEntries(m, name, key, value, keys, v).value;
      forall i :: 0 <= i < |entries| ==> entries[i].name == name && EntryNamed(key, value, v, entries[i])
    decreases v, 0, |keys|
  {
    if keys != [] {
      var front, k := keys[..|keys| - 1], keys[|keys| - 1];
      EntriesNamed(m, name, key, value, front, v);
      EncodedName(m, ElementName("value", value), value, v.fields[k]);
      hide Encode;
    }
  }

  /** A list is a wrapper of items under the location name of its member or "member", or flattened under its own name. */
  lemma ListNames(m: Model, name: string, ref: ShapeRef, v: Value)
    requires ref.shape in m.shapes && m.shapes[ref.shape].List? && Encode(m, name, ref, v).Some?
    ensures var nodes, member := Encode(m, name, ref, v).value, m.shapes[ref.shape].member;
      if ref.flattened then forall i :: 0 <= i < |nodes| ==> nodes[i].name == name
      else |nodes| == 1 && nodes[0].name == name
           && forall i :: 0 <= i < |nodes[0].children| ==> nodes[0].children[i].name == if member.locationName == "" then "member" else member.locationName
  {
    var member := m.shapes[ref.shape].member;
    ItemsNamed(m, if ref.flattened then name else ElementName("member", member), member, |v.items|, v);
    hide EncodeItems;
  }

  /** A map is a wrapper of elements called "entry", or flattened under its own name; keys and values have their names. */
  lemma MapNames(m: Model, name: string, ref: ShapeRef, v: Value)
    requires ref.shape in m.shapes && m.shapes[ref.shape].Map? && Encode(m, name, ref, v).Some?
    ensures var nodes, s := Encode(m, name, ref, v).value, m.shapes[ref.shape];
      if ref.flattened then forall i :: 0 <= i < |nodes| ==> nodes[i].name == name && EntryNamed(s.key, s.value, v, nodes[i])
      else |nodes| == 1 && nodes[0].name == name
           && forall i :: 0 <= i < |nodes[0].children| ==> nodes[0].children[i].name == "entry" && EntryNamed(s.key, s.value, v, nodes[0].children[i])
  {
    var key, value := m.shapes[ref.shape].key, m.shapes[ref.shape].value;
    EntriesNamed(m, if ref.flattened then name else "entry", key, value, SortedKeys(v.fields.Keys), v);
    hide EncodeEntries, SortedKeys, EntryNamed;
  }

  /** What the structure's element holds is what its members are written as, one after another. */
  ghost predicate WrittenAs(m: Model, members: map<string, ShapeRef>, names: seq<string>, v: Value, parts: seq<Part>, whole: Part)
    requires v.Fields?
  {
    && |parts| == |names|
    && (forall i :: 0 <= i < |names| ==> names[i] in members && names[i] in v.fields && Written(m, names[i], members[names[i]], v.fields[names[i]], parts[i]))
    && whole == Joined(parts)
  }

  ghost function Joined(parts: seq<Part>): Part {
    if parts == [] then Part([], [])
    else
      var front, last := Joined(parts[..|parts| - 1]), parts[|parts| - 1];
      Part(front.attrs + last.attrs, front.nodes + last.nodes)
  }

  lemma {:induction false} FieldsWritten(m: Model, members: map<string, ShapeRef>, names: seq<string>, v: Value) returns (parts: seq<Part>)
    requires v.Fields? && (forall n :: n in names ==> n in v.fields) && EncodeFields(m, members, names, v).Some?
    ensures WrittenAs(m, members, names, v, parts, EncodeFields(m, members, names, v).value)
  {
    hide Encode, ScalarText;
    if names == [] {
      parts := [];
    } else {
      var front, n := names[..|names| - 1], names[|names| - 1];
      var before := FieldsWritten(m, members, front, v);
      parts := before + [EncodeField(m, members, n, v).value];
      assert parts[..|parts| - 1] == before;
      forall i | 0 <= i < |names| ensures names[i] in members && names[i] in v.fields && Written(m, names[i], members[names[i]], v.fields[names[i]], parts[i]) {
        if i < |front| { assert front[i] == names[i]; }
      }
    }
  }

  /** A structure is one element whose attributes and children are its members in name order, each under its name on the wire. */
  lemma StructureNames(m: Model, name: string, ref: ShapeRef, v: Value) returns (parts: seq<Part>)
    requires ref.shape in m.shapes && m.shapes[ref.shape].Structure? && Encode(m, name, ref, v).Some?
    ensures var nodes := Encode(m, name, ref, v).value;
      && |nodes| == 1 && nodes[0].name == name
      && WrittenAs(m, m.shapes[ref.shape].members, SortedKeys(v.fields.Keys), v, parts, Part(nodes[0].attrs, nodes[0].children))
  {
    hide SortedKeys, WrittenAs, EncodeFields;
    parts := FieldsWritten(m, m.shapes[ref.shape].members, SortedKeys(v.fields.Keys), v);
  }

  ghost predicate Reserved(name: string) { Lower(name) == "requestid" || Lower(name) == "responsemetadata" }

  /** The decoder puts the children of a member's name on the wire under the member. */
  lemma DecodedMember(m: Decodable, members: map<string, ShapeRef>, node: Node, n: string)
    requires n in members
    ensures var wire := if members[n].locationName == "" then n else members[n].locationName;
      !Reserved(wire) && Named(node.children, wire) != [] ==>
        n in Document(m, members, node)
        && Document(m, members, node)[n] == Normalize(m, members[n].shape, Named(node.children, wire),
                                                      members[n].flattened || (members[n].shape in m.shapes && members[n].shape in m.flattened))
  {
    hide Normalize, Named;
    var wire := if members[n].locationName == "" then n else members[n].locationName;
    assert Group(node, wire) == if Reserved(wire) then [] else Named(node.children, wire);
    if Group(node, wire) != [] {
      var modelled := Modelled(m, members, node, members.Keys);
      assert n in modelled && modelled[n] == MemberValue(m, n, members[n], node);
    }
  }

  lemma {:induction false} NamedMeaning(nodes: seq<Node>, name: string, x: Node)
    ensures x in Named(nodes, name) <==> x in nodes && x.name == name
  {
    if nodes != [] {
      NamedMeaning(nodes[..|nodes| - 1], name, x);
      assert nodes == nodes[..|nodes| - 1] + [nodes[|nodes| - 1]];
    }
  }

  /** A child of a name no member has on the wire. */
  ghost predicate Unbound(members: map<string, ShapeRef>, node: Node, w: string) {
    && !Reserved(w) && Named(node.children, w) != []
    && forall n :: n in members ==> w != if members[n].locationName == "" then n else members[n].locationName
  }

  /** Besides its members, a document has the children no member is bound to, each as the trimmed text of the first of its name; it has nothing else. */
  lemma DecodedOther(m: Decodable, members: map<string, ShapeRef>, node: Node, k: string)
    requires k !in members
    ensures k in Document(m, members, node) <==> Unbound(members, node, k)
    ensures Unbound(members, node, k) ==> Document(m, members, node)[k] == Text(TrimSpace(Named(node.children, k)[0].text))
  {
    hide Normalize, TrimSpace;
    assert Group(node, k) == if Reserved(k) then [] else Named(node.children, k);
    assert k in Document(m, members, node) <==> k in Unmodelled(members, node);
    assert Bound(members, k) <==> exists n :: n in members && k == if members[n].locationName == "" then n else members[n].locationName;
    if Named(node.children, k) != [] { NamedMeaning(node.children, k, Named(node.children, k)[0]); }
  }

  /** The decoder takes the items of a wrapped list from the children of the member's name, and the entries of a wrapped map from those called "entry". */
  lemma DecodedItems(m: Decodable, name: string, node: Node)
    requires name in m.shapes && name !in m.flattened
    ensures m.shapes[name].List? ==>
      var member := m.shapes[name].member; var items := Named(node.children, if member.locationName == "" then "member" else member.locationName);
      Normalize(m, name, [node], false) == Items(NormalizeEach(m, member.shape, items, |items|))
    ensures m.shapes[name].Map? ==>
      var entries := Named(node.children, "entry");
      Normalize(m, name, [node], false) == Fields(NormalizeEntries(m, m.shapes[name].key, m.shapes[name].value, entries, |entries|))
  {
    hide NormalizeEach, NormalizeEntries, Document;
  }

  /** The decoder reads an entry's key and value from its first children of their names. */
  lemma DecodedEntry(m: Decodable, key: ShapeRef, value: ShapeRef, entries: seq<Node>, n: nat)
    requires 0 < n <= |entries|
    ensures var e := entries[n - 1];
      var k := First(e.children, if key.locationName == "" then "key" else key.locationName);
      var w := First(e.children, if value.locationName == "" then "value" else value.locationName);
      var before := NormalizeEntries(m, key, value, entries, n - 1);
      NormalizeEntries(m, key, value, entries, n) ==
        if k.Some? && w.Some? then before[TrimSpace(k.value.text) := Normalize(m, value.shape, [w.value], false)] else before
  {
    hide Normalize, First, TrimSpace;
  }

  // The encoder as it runs.

  method XmlValue(m: Model, name: string, ref: ShapeRef, v: Value) returns (r: Option<seq<Node>>)
    ensures r == Encode(m, name, ref, v)
    decreases v, 2
  {
    hide EncodeFields, EncodeItems, EncodeEntries, SortedKeys;
    if ref.shape !in m.shapes { return None; }
    match m.shapes[ref.shape]
    case Structure(_, members, _) =>
      if !v.Fields? { return None; }
      var part := XmlStructure(m, members, v);
      if part.None? { return None; }
      return Some([Node(name, part.value.attrs, "", part.value.nodes)]);
    case List(member, _, _) =>
      if !v.Items? { return None; }
      var nodes := XmlItems(m, if ref.flattened then name else ElementName("member", member), member, v);
      if nodes.None? { return None; }
      return Some(if ref.flattened then nodes.value else [Node(name, [], "", nodes.value)]);
    case Map(key, value, _) =>
      if !v.Fields? { return None; }
      var nodes := XmlEntries(m, if ref.flattened then name else "entry", key, value, v);
      if nodes.None? { return None; }
      return Some(if ref.flattened then nodes.value else [Node(name, [], "", nodes.value)]);
    case Str(_) => r := XmlScalar(name, v);
    case Leaf(_) => r := XmlScalar(name, v);
  }

  method XmlScalar(name: string, v: Value) returns (r: Option<seq<Node>>)
    ensures r == match ScalarText(v) case None => None case Some(s) => Some([Node(name, [], s, [])])
  {
    var text := ScalarText(v);
    if text.None? { return None; }
    return Some([Node(name, [], text.value, [])]);
  }

  method XmlStructure(m: Model, members: map<string, ShapeRef>, v: Value) returns (r: Option<Part>)
    requires v.Fields?
    ensures r == EncodeFields(m, members, SortedKeys(v.fields.Keys), v)
    decreases v, 1
  {
    hide EncodeField, SortedKeys;
    var names := SortedKeys(v.fields.Keys);
    var part := Part([], []);
    for i := 0 to |names|
      invariant EncodeFields(m, members, names[..i], v) == Some(part)
    {
      assert names[..i + 1][..i] == names[..i];
      var field := XmlField(m, members, names[i], v);
      if field.None? { FieldsFail(m, members, names, i + 1, v); return None; }
      part := Part(part.attrs + field.value.attrs, part.nodes + field.value.nodes);
    }
    assert names[..|names|] == names;
    r := Some(part);
  }

  method XmlField(m: Model, members: map<string, ShapeRef>, n: string, v: Value) returns (r: Option<Part>)
    requires v.Fields? && n in v.fields
    ensures r == EncodeField(m, members, n, v)
    decreases v, 0
  {
    hide Encode, ElementName;
    if n !in members { return None; }
    if members[n].xmlAttribute {
      var text := ScalarText(v.fields[n]);
      if text.None? { return None; }
      return Some(Part([(ElementName(n, members[n]), text.value)], []));
    }
    var nodes := XmlValue(m, ElementName(n, members[n]), members[n], v.fields[n]);
    if nodes.None? { return None; }
    return Some(Part([], nodes.value));
  }

  lemma {:induction false} FieldsFail(m: Model, members: map<string, ShapeRef>, names: seq<string>, i: nat, v: Value)
    requires v.Fields? && (forall n :: n in names ==> n in v.fields) && i <= |names| && EncodeFields(m, members, names[..i], v).None?
    ensures EncodeFields(m, members, names, v).None?
  {
    if i < |names| {
      assert names[..|names| - 1][..i] == names[..i];
      FieldsFail(m, members, names[..|names| - 1], i, v);
    } else {
      assert names[..i] == names;
    }
  }

  method XmlItems(m: Model, name: string, ref: ShapeRef, v: Value) returns (r: Option<seq<Node>>)
    requires v.Items?
    ensures r == EncodeItems(m, name, ref, |v.items|, v)
    decreases v, 1
  {
    hide Encode;
    var nodes: seq<Node> := [];
    for i := 0 to |v.items|
      invariant EncodeItems(m, name, ref, i, v) == Some(nodes)
    {
      var item := XmlValue(m, name, ref, v.items[i]);
      if item.None? { ItemsFail(m, name, ref, i + 1, |v.items|, v); return None; }
      nodes := nodes + item.value;
    }
    r := Some(nodes);
  }

  lemma {:induction false} ItemsFail(m: Model, name: string, ref: ShapeRef, i: nat, n: nat, v: Value)
    requires v.Items? && i <= n <= |v.items| && EncodeItems(m, name, ref, i, v).None?
    ensures EncodeItems(m, name, ref, n, v).None?
  {
    if i < n { ItemsFail(m, name, ref, i, n - 1, v); }
  }

  method XmlEntries(m: Model, name: string, key: ShapeRef, value: ShapeRef, v: Value) returns (r: Option<seq<Node>>)
    requires v.Fields?
    ensures r == EncodeEntries(m, name, key, value, SortedKeys(v.fields.Keys), v)
    decreases v, 1
  {
    hide Encode, SortedKeys, ElementName;
    var keys := SortedKeys(v.fields.Keys);
    var nodes: seq<Node> := [];
    for i := 0 to |keys|
      invariant EncodeEntries(m, name, key, value, keys[..i], v) == Some(nodes)
    {
      assert keys[..i + 1][..i] == keys[..i];
      var inner := XmlValue(m, ElementName("value", value), value, v.fields[keys[i]]);
      if inner.None? { EntriesFail(m, name, key, value, keys, i + 1, v); return None; }
      nodes := nodes + [Node(name, [], "", [Node(ElementName("key", key), [], keys[i], [])] + inner.value)];
    }
    assert keys[..|keys|] == keys;
    r := Some(nodes);
  }

  lemma {:induction false} EntriesFail(m: Model, name: string, key: ShapeRef, value: ShapeRef, keys: seq<string>, i: nat, v: Value)
    requires v.Fields? && (forall k :: k in keys ==> k in v.fields) && i <= |keys| && EncodeEntries(m, name, key, value, keys[..i], v).None?
    ensures EncodeEntries(m, name, key, value, keys, v).None?
  {
    if i < |keys| {
      assert keys[..|keys| - 1][..i] == keys[..i];
      EntriesFail(m, name, key, value, keys[..|keys| - 1], i, v);
    } else {
      assert keys[..i] == keys;
    }
  }

  // The decoder as it runs.

  /** Wire names tell members apart; otherwise which member an element goes to is not determined. */
  ghost predicate DistinctWires(m: Decodable) {
    forall s :: s in m.shapes && m.shapes[s].Structure? ==> DistinctMembers(m.shapes[s].members)
  }

  ghost predicate DistinctMembers(members: map<string, ShapeRef>) {
    forall n, k :: n in members && k in members && ElementName(n, members[n]) == ElementName(k, members[k]) ==> n == k
  }

  method NormalizeXMLShape(m: Decodable, name: string, nodes: seq<Node>, flattened: bool) returns (v: Value)
    requires DistinctWires(m)
    ensures v == Normalize(m, name, nodes, flattened)
    decreases Sizes(nodes), if flattened || name in m.flattened then 3 else 1, 0
  {
    hide NormalizeEach, NormalizeEntries, Document, Sizes, TrimSpace, ElementName;
    if name !in m.shapes || nodes == [] { return Null; }
    SizeOfItem(nodes, 0);
    SizeParts(nodes[0]);
    match m.shapes[name]
    case Structure(_, members, _) =>
      var document := NormalizeXMLStructure(m, members, nodes[0]);
      return Fields(document);
    case List(member, _, _) =>
      var itemNodes := if flattened || name in m.flattened then nodes else Named(nodes[0].children, ElementName("member", member));
      var items := NormalizeXMLItems(m, member.shape, itemNodes);
      return Items(items);
    case Map(key, value, _) =>
      var entries := if flattened || name in m.flattened then nodes else Named(nodes[0].children, "entry");
      var result := NormalizeXMLEntries(m, key, value, entries);
      return Fields(result);
    case Str(_) => return Text(TrimSpace(nodes[0].text));
    case Leaf(_) => return Text(TrimSpace(nodes[0].text));
  }

  lemma SizeParts(n: Node)
    ensures Size(n) == 1 + Sizes(n.children)
  {
  }

  method NormalizeXMLItems(m: Decodable, name: string, nodes: seq<Node>) returns (items: seq<Value>)
    requires DistinctWires(m) && name !in m.flattened
    ensures items == NormalizeEach(m, name, nodes, |nodes|)
    decreases Sizes(nodes), 2, 0
  {
    hide Normalize, Sizes;
    items := [];
    for i := 0 to |nodes|
      invariant items == NormalizeEach(m, name, nodes, i)
    {
      SizeOfItem(nodes, i);
      SizeOfOne(nodes[i]);
      var item := NormalizeXMLShape(m, name, [nodes[i]], false);
      items := items + [item];
    }
  }

  method NormalizeXMLEntries(m: Decodable, key: ShapeRef, value: ShapeRef, entries: seq<Node>) returns (result: map<string, Value>)
    requires DistinctWires(m)
    ensures result == NormalizeEntries(m, key, value, entries, |entries|)
    decreases Sizes(entries), 2, 0
  {
    hide Normalize, Sizes, First, TrimSpace, ElementName;
    result := map[];
    for i := 0 to |entries|
      invariant result == NormalizeEntries(m, key, value, entries, i)
    {
      SizeOfItem(entries, i);
      var keyNode := First(entries[i].children, ElementName("key", key));
      var valueNode := First(entries[i].children, ElementName("value", value));
      if keyNode.Some? && valueNode.Some? {
        SmallerChild(entries[i], valueNode.value);
        var v := NormalizeXMLShape(m, value.shape, [valueNode.value], false);
        result := result[TrimSpace(keyNode.value.text) := v];
      }
    }
  }

  /** Children by name, without the names transports reserve. */
  method GroupChildren(node: Node) returns (grouped: map<string, seq<Node>>)
    ensures forall w :: w in grouped <==> Group(node, w) != []
    ensures forall w :: w in grouped ==> grouped[w] == Group(node, w)
  {
    hide GroupedBy, Named, IsTransportMetadata;
    grouped := map[];
    NoGroups();
    for i := 0 to |node.children|
      invariant GroupedBy(node.children[..i], grouped)
    {
      GroupNext(node.children, i, grouped);
      var child := node.children[i];
      if !IsTransportMetadata(child.name) {
        grouped := grouped[child.name := (if child.name in grouped then grouped[child.name] else []) + [child]];
      }
    }
    assert node.children[..|node.children|] == node.children;
    GroupedMeaning(node, grouped);
  }

  ghost predicate GroupedBy(nodes: seq<Node>, grouped: map<string, seq<Node>>) {
    && (forall w :: w in grouped <==> !IsTransportMetadata(w) && Named(nodes, w) != [])
    && (forall w :: w in grouped ==> grouped[w] == Named(nodes, w))
  }

  lemma NoGroups()
    ensures GroupedBy([], map[])
  {
  }

  lemma GroupedMeaning(node: Node, grouped: map<string, seq<Node>>)
    requires GroupedBy(node.children, grouped)
    ensures forall w :: w in grouped <==> Group(node, w) != []
    ensures forall w :: w in grouped ==> grouped[w] == Group(node, w)
  {
    hide Named, IsTransportMetadata;
  }

  lemma GroupNext(nodes: seq<Node>, i: nat, grouped: map<string, seq<Node>>)
    requires i < |nodes| && GroupedBy(nodes[..i], grouped)
    ensures var name := nodes[i].name;
      GroupedBy(nodes[..i + 1], if IsTransportMetadata(name) then grouped else grouped[name := (if name in grouped then grouped[name] else []) + [nodes[i]]])
  {
    hide IsTransportMetadata, Named;
    forall w ensures Named(nodes[..i + 1], w) == Named(nodes[..i], w) + if nodes[i].name == w then [nodes[i]] else [] {
      NamedNext(nodes, i, w);
    }
  }

  lemma NamedNext(nodes: seq<Node>, i: nat, name: string)
    requires i < |nodes|
    ensures Named(nodes[..i + 1], name) == Named(nodes[..i], name) + if nodes[i].name == name then [nodes[i]] else []
  {
    assert nodes[..i + 1][..i] == nodes[..i];
  }

  method WireMembers(members: map<string, ShapeRef>) returns (wires: map<string, string>)
    requires DistinctMembers(members)
    ensures forall n :: n in members ==> ElementName(n, members[n]) in wires
    ensures forall w :: w in wires ==> wires[w] in members && ElementName(wires[w], members[wires[w]]) == w
  {
    hide ElementName;
    wires := map[];
    var todo := members.Keys;
    while todo != {}
      invariant todo <= members.Keys
      invariant forall n :: n in members && n !in todo ==> ElementName(n, members[n]) in wires
      invariant forall w :: w in wires ==> wires[w] in members && ElementName(wires[w], members[wires[w]]) == w
      decreases |todo|
    {
      var n :| n in todo;
      todo := todo - {n};
      wires := wires[ElementName(n, members[n]) := n];
    }
  }

  /** Unbound elements first, then the members, so that a member wins when an unbound element bears its name. */
  method NormalizeXMLStructure(m: Decodable, members: map<string, ShapeRef>, node: Node) returns (document: map<string, Value>)
    requires DistinctWires(m) && DistinctMembers(members)
    ensures document == Document(m, members, node)
    decreases Size(node), 0, 1
  {
    hide Modelled, Unmodelled;
    var grouped := GroupChildren(node);
    var unmodelled := UnmodelledElements(members, node, grouped);
    var modelled := ModelledMembers(m, members, node, grouped);
    document := unmodelled + modelled;
  }

  method UnmodelledElements(members: map<string, ShapeRef>, node: Node, grouped: map<string, seq<Node>>) returns (unmodelled: map<string, Value>)
    requires DistinctMembers(members)
    requires (forall w :: w in grouped <==> Group(node, w) != []) && forall w :: w in grouped ==> grouped[w] == Group(node, w)
    ensures unmodelled == Unmodelled(members, node)
  {
    hide Unmodelled, Group, ElementName;
    var wires := WireMembers(members);
    unmodelled := map w: string | w in grouped && w !in wires && grouped[w] != [] :: Text(TrimSpace(grouped[w][0].text));
    UnboundNames(members, node, grouped, wires);
  }

  method ModelledMembers(m: Decodable, members: map<string, ShapeRef>, node: Node, grouped: map<string, seq<Node>>) returns (document: map<string, Value>)
    requires DistinctWires(m)
    requires (forall w :: w in grouped <==> Group(node, w) != []) && forall w :: w in grouped ==> grouped[w] == Group(node, w)
    ensures document == Modelled(m, members, node, members.Keys)
    decreases Size(node), 0, 0
  {
    hide Modelled, ElementName, Group, DistinctWires, Size, Sizes;
    NoneModelled(m, members, node);
    document := map[];
    var todo := members.Keys;
    while todo != {}
      invariant todo <= members.Keys
      invariant document == Modelled(m, members, node, members.Keys - todo)
      decreases |todo|
    {
      var n :| n in todo;
      OneMoreModelled(m, members, node, members.Keys - todo, n);
      assert members.Keys - (todo - {n}) == members.Keys - todo + {n};
      todo := todo - {n};
      var wire := ElementName(n, members[n]);
      if wire in grouped {
        var v := NormalizeXMLShape(m, members[n].shape, grouped[wire], FlatRef(m, members[n]));
        document := document[n := v];
      }
    }
    assert members.Keys - {} == members.Keys;
  }

  lemma NoneModelled(m: Decodable, members: map<string, ShapeRef>, node: Node)
    ensures Modelled(m, members, node, members.Keys - members.Keys) == map[]
  {
  }

  lemma OneMoreModelled(m: Decodable, members: map<string, ShapeRef>, node: Node, names: set<string>, n: string)
    requires n in members
    ensures Modelled(m, members, node, names + {n}) ==
            if Group(node, ElementName(n, members[n])) == [] then Modelled(m, members, node, names - {n})
            else Modelled(m, members, node, names)[n := Normalize(m, members[n].shape, Group(node, ElementName(n, members[n])), FlatRef(m, members[n]))]
    ensures n !in names ==> Modelled(m, members, node, names - {n}) == Modelled(m, members, node, names)
  {
    hide Group, ElementName, Normalize, FlatRef;
    if n !in names { assert names - {n} == names; }
  }

  lemma UnboundNames(members: map<string, ShapeRef>, node: Node, grouped: map<string, seq<Node>>, wires: map<string, string>)
    requires forall w :: w in grouped <==> Group(node, w) != []
    requires forall w :: w in grouped ==> grouped[w] == Group(node, w)
    requires forall n :: n in members ==> ElementName(n, members[n]) in wires
    requires forall w :: w in wires ==> wires[w] in members && ElementName(wires[w], members[wires[w]]) == w
    ensures (map w: string | w in grouped && w !in wires && grouped[w] != [] :: Text(TrimSpace(grouped[w][0].text))) == Unmodelled(members, node)
  {
    hide ElementName, TrimSpace, IsTransportMetadata;
    forall w ensures w in grouped ==> w in ChildNames(node.children) {
      if w in grouped { NamedChild(node.children, w); }
    }
    forall w ensures w in wires <==> Bound(members, w) { }
  }

  lemma {:induction false} NamedChild(nodes: seq<Node>, name: string)
    requires Named(nodes, name) != []
    ensures name in ChildNames(nodes)
  {
    var n := |nodes| - 1;
    if nodes[n].name == name {
      assert nodes[n] in nodes;
    } else {
      NamedChild(nodes[..n], name);
      var c :| c in nodes[..n] && c.name == name;
      assert c in nodes;
    }
  }
}
