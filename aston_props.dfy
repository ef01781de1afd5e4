/**
 * What the quads of `ast_to_aston` mean: the post-order layout, the node's own group, the
 * quads each kind of field yields, the hashed object, and the Merkle property of the hash.
 */
module AstonProperties {
  import opened Wrappers
  import opened Aston

  // ----------------------------------------------------------------------------------------
  // Views of a tree and of a quad list
  // ----------------------------------------------------------------------------------------

  /** The hashed object of a node: `_type` and each kept field. */
  function CanonicalOf(n: Node, H: Canonical -> string, reprUnhandled: bool): Canonical {
    ObjOf(map["_type" := JAtom(Str(n.typeName))], FieldData(n.fields, H, reprUnhandled))
  }

  /** The node's own group: the `_type` quad, then the quads of each kept field. */
  function OwnQuads(n: Node, H: Canonical -> string, reprUnhandled: bool): seq<Quad> {
    var h := Encode(n, H, reprUnhandled).0;
    [Quad(h, "_type", None, Str(n.typeName))] + GroupQuads(h, FieldData(n.fields, H, reprUnhandled))
  }

  /** The direct children of a node, in field order and, inside a list, in item order. */
  function ChildNodes(fields: seq<Field>): seq<Node> {
    if fields == [] then []
    else ChildNodes(fields[..|fields| - 1]) + ValueChildren(fields[|fields| - 1].value)
  }

  function ValueChildren(v: Value): seq<Node> {
    match v
    case Child(c) => [c]
    case ListOf(items) => ItemNodes(items)
    case _ => []
  }

  function ItemNodes(items: seq<Item>): seq<Node> {
    if items == [] then []
    else ItemNodes(items[..|items| - 1]) + (if items[|items| - 1].ItemNode? then [items[|items| - 1].node] else [])
  }

  /** The encodings of a sequence of trees, one after the other. */
  function EncodeAll(cs: seq<Node>, H: Canonical -> string, reprUnhandled: bool): seq<Quad> {
    ConcatMap(cs, c => Encode(c, H, reprUnhandled).1)
  }

  function ConcatMap(cs: seq<Node>, E: Node -> seq<Quad>): seq<Quad> {
    if cs == [] then []
    else ConcatMap(cs[..|cs| - 1], E) + E(cs[|cs| - 1])
  }

  /** The number of nodes of a tree. */
  function NodeCount(n: Node): nat {
    1 + FieldsNodeCount(n.fields)
  }

  function FieldsNodeCount(fields: seq<Field>): nat {
    if fields == [] then 0
    else
      var last := fields[|fields| - 1];
      assert last in fields;
      FieldsNodeCount(fields[..|fields| - 1]) + ValueNodeCount(last.value)
  }

  function ValueNodeCount(v: Value): nat {
    match v
    case Child(c) => NodeCount(c)
    case ListOf(items) => ItemsNodeCount(items)
    case _ => 0
  }

  function ItemsNodeCount(items: seq<Item>): nat {
    if items == [] then 0
    else
      var it := items[|items| - 1];
      assert it in items;
      ItemsNodeCount(items[..|items| - 1]) + ItemNodeCount(it)
  }

  function ItemNodeCount(it: Item): nat {
    match it
    case ItemNode(m) => NodeCount(m)
    case ItemAtom(_) => 0
  }

  /** No field anywhere in the tree is called `_type` (true of every Python syntax tree). */
  predicate NoTypeField(n: Node) {
    forall f :: f in n.fields ==> f.name != "_type" && ValueNoTypeField(f.value)
  }

  predicate ValueNoTypeField(v: Value) {
    match v
    case Child(c) => NoTypeField(c)
    case ListOf(items) => forall it :: it in items ==> (it.ItemNode? ==> NoTypeField(it.node))
    case _ => true
  }

  /** The field names of a node are pairwise distinct (true of every Python syntax node). */
  predicate DistinctNames(fields: seq<Field>) {
    forall i, j :: 0 <= i < j < |fields| ==> fields[i].name != fields[j].name
  }

  /** The quads whose field is `key`, in order. */
  function KeyQuads(qs: seq<Quad>, key: string): (r: seq<Quad>)
    ensures forall q :: q in r ==> q in qs && q.key == key
  {
    if qs == [] then []
    else KeyQuads(qs[..|qs| - 1], key) + (if qs[|qs| - 1].key == key then [qs[|qs| - 1]] else [])
  }

  /** The quads a field's value yields in its node's group, by the kind of value. */
  predicate FieldQuadsRule(h: string, name: string, v: Value, qs: seq<Quad>, H: Canonical -> string, reprUnhandled: bool) {
    match v
    case Atomic(a) => qs == [Quad(h, name, None, a)]
    case Child(c) => qs == [Quad(h, name, None, Str(Encode(c, H, reprUnhandled).0))]
    case ListOf(items) =>
      |qs| == |items|
      && forall j :: 0 <= j < |items| ==>
           qs[j] == Quad(h, name, Some(j), if items[j].ItemNode? then Str(Encode(items[j].node, H, reprUnhandled).0) else items[j].atom)
    case Unhandled(r) => qs == if reprUnhandled then [Quad(h, name, None, Repr(r))] else []
  }

  // ----------------------------------------------------------------------------------------
  // Sequence helpers
  // ----------------------------------------------------------------------------------------

  lemma {:induction false} KeyQuadsAppend(a: seq<Quad>, b: seq<Quad>, key: string)
    ensures KeyQuads(a + b, key) == KeyQuads(a, key) + KeyQuads(b, key)
    decreases |b|
  {
    if b == [] {
      assert a + b == a;
    } else {
      var b' := b[..|b| - 1];
      assert (a + b)[..|a + b| - 1] == a + b';
      assert (a + b)[|a + b| - 1] == b[|b| - 1];
      KeyQuadsAppend(a, b', key);
    }
  }

  lemma {:induction false} ConcatMapAppend(a: seq<Node>, b: seq<Node>, E: Node -> seq<Quad>)
    ensures ConcatMap(a + b, E) == ConcatMap(a, E) + ConcatMap(b, E)
    decreases |b|
  {
    if b == [] {
      assert a + b == a;
    } else {
      var b' := b[..|b| - 1];
      assert (a + b)[..|a + b| - 1] == a + b';
      assert (a + b)[|a + b| - 1] == b[|b| - 1];
      ConcatMapAppend(a, b', E);
    }
  }

  lemma EncodeAllAppend(a: seq<Node>, b: seq<Node>, H: Canonical -> string, reprUnhandled: bool)
    ensures EncodeAll(a + b, H, reprUnhandled) == EncodeAll(a, H, reprUnhandled) + EncodeAll(b, H, reprUnhandled)
  {
    ConcatMapAppend(a, b, c => Encode(c, H, reprUnhandled).1);
  }

  /** One more field of `fields` in the group: its datum's quads, if kept, come last. */
  lemma GroupFieldsStep(h: string, fields: seq<Field>, H: Canonical -> string, reprUnhandled: bool)
    requires fields != []
    ensures var last := fields[|fields| - 1];
      var d := Datum(last.value, H, reprUnhandled);
      GroupQuads(h, FieldData(fields, H, reprUnhandled))
      == GroupQuads(h, FieldData(fields[..|fields| - 1], H, reprUnhandled)) + (if d.Some? then DatumQuads(h, last.name, d.value) else [])
  {
    var prefix := fields[..|fields| - 1];
    var last := fields[|fields| - 1];
    var d := Datum(last.value, H, reprUnhandled);
    var data := FieldData(prefix, H, reprUnhandled);
    if d.Some? {
      assert FieldData(fields, H, reprUnhandled) == data + [(last.name, d.value)];
      assert (data + [(last.name, d.value)])[..|data|] == data;
    } else {
      assert FieldData(fields, H, reprUnhandled) == data + [];
      assert data + [] == data;
    }
  }

  /** One more field of `fields` in the hashed object: it is assigned last, if kept. */
  lemma ObjFieldsStep(base: Canonical, fields: seq<Field>, H: Canonical -> string, reprUnhandled: bool)
    requires fields != []
    ensures var last := fields[|fields| - 1];
      var d := Datum(last.value, H, reprUnhandled);
      var obj := ObjOf(base, FieldData(fields[..|fields| - 1], H, reprUnhandled));
      ObjOf(base, FieldData(fields, H, reprUnhandled)) == if d.Some? then obj[last.name := JValueOf(d.value)] else obj
  {
    var prefix := fields[..|fields| - 1];
    var last := fields[|fields| - 1];
    var d := Datum(last.value, H, reprUnhandled);
    var data := FieldData(prefix, H, reprUnhandled);
    if d.Some? {
      ObjStep(base, data, last.name, d.value);
    } else {
      assert FieldData(fields, H, reprUnhandled) == data + [];
      assert data + [] == data;
    }
  }

  lemma GroupQuadsAppend(h: string, data: seq<(string, FieldDatum)>, ext: seq<(string, FieldDatum)>)
    requires |ext| <= 1
    ensures GroupQuads(h, data + ext) == GroupQuads(h, data) + GroupQuads(h, ext)
  {
    if ext == [] {
      assert data + ext == data;
    } else {
      var e := ext[0];
      var g, d := GroupQuads(h, data), DatumQuads(h, e.0, e.1);
      assert (data + ext)[..|data|] == data && (data + ext)[|data|] == e;
      assert GroupQuads(h, data + ext) == g + d;
      assert ext[..0] == [];
      assert GroupQuads(h, ext) == [] + d;
      EmptyConcat(d);
    }
  }

  lemma EmptyConcat<T>(s: seq<T>)
    ensures [] + s == s
  {
  }

  /** The `i`-th list value is the `i`-th item's value. */
  lemma {:induction false} ItemValuesAt(items: seq<Item>, j: nat, H: Canonical -> string, reprUnhandled: bool)
    requires j < |items|
    ensures ItemValues(items, H, reprUnhandled)[j] == ItemValue(items[j], H, reprUnhandled)
    decreases |items|
  {
    if j < |items| - 1 {
      ItemValuesAt(items[..|items| - 1], j, H, reprUnhandled);
    }
  }

  // ----------------------------------------------------------------------------------------
  // Post-order layout
  // ----------------------------------------------------------------------------------------

  /** The children's quads are the children's encodings, one child after the other. */
  lemma {:induction false} ChildQuadsAreEncodings(fields: seq<Field>, H: Canonical -> string, reprUnhandled: bool)
    ensures ChildQuads(fields, H, reprUnhandled) == EncodeAll(ChildNodes(fields), H, reprUnhandled)
    decreases |fields|
  {
    if fields != [] {
      var last := fields[|fields| - 1];
      ChildQuadsAreEncodings(fields[..|fields| - 1], H, reprUnhandled);
      EncodeAllAppend(ChildNodes(fields[..|fields| - 1]), ValueChildren(last.value), H, reprUnhandled);
      match last.value {
        case Child(c) =>
          assert EncodeAll([c], H, reprUnhandled) == [] + Encode(c, H, reprUnhandled).1;
        case ListOf(items) =>
          ItemQuadsAreEncodings(items, H, reprUnhandled);
        case Atomic(_) =>
        case Unhandled(_) =>
      }
    }
  }

  lemma {:induction false} ItemQuadsAreEncodings(items: seq<Item>, H: Canonical -> string, reprUnhandled: bool)
    ensures ItemsChildQuads(items, H, reprUnhandled) == EncodeAll(ItemNodes(items), H, reprUnhandled)
    decreases |items|
  {
    if items != [] {
      var it := items[|items| - 1];
      var rest := ItemNodes(items[..|items| - 1]);
      ItemQuadsAreEncodings(items[..|items| - 1], H, reprUnhandled);
      match it {
        case ItemNode(m) =>
          EncodeAllAppend(rest, [m], H, reprUnhandled);
          assert EncodeAll([m], H, reprUnhandled) == [] + Encode(m, H, reprUnhandled).1;
        case ItemAtom(_) =>
          assert rest + [] == rest;
      }
    }
  }

  /**
   * Post-order: a node's quads are its children's encodings, in order, followed by its own
   * group, which starts with its `_type` quad and whose every quad carries its hash.
   */
  lemma PostOrderLayout(n: Node, H: Canonical -> string, reprUnhandled: bool)
    ensures Encode(n, H, reprUnhandled).1 == EncodeAll(ChildNodes(n.fields), H, reprUnhandled) + OwnQuads(n, H, reprUnhandled)
    ensures OwnQuads(n, H, reprUnhandled)[0] == Quad(Encode(n, H, reprUnhandled).0, "_type", None, Str(n.typeName))
    ensures forall q :: q in OwnQuads(n, H, reprUnhandled) ==> q.hash == Encode(n, H, reprUnhandled).0
  {
    ChildQuadsAreEncodings(n.fields, H, reprUnhandled);
    EncodeParts(n, H, reprUnhandled);
    GroupCarriesHash(Encode(n, H, reprUnhandled).0, FieldData(n.fields, H, reprUnhandled));
  }

  lemma {:induction false} GroupCarriesHash(h: string, data: seq<(string, FieldDatum)>)
    ensures forall q :: q in GroupQuads(h, data) ==> q.hash == h
    decreases |data|
  {
    if data != [] {
      GroupCarriesHash(h, data[..|data| - 1]);
    }
  }

  // ----------------------------------------------------------------------------------------
  // One `_type` quad per node
  // ----------------------------------------------------------------------------------------

  /** The group lists no `_type` quad beyond the first when no field is called `_type`. */
  lemma {:induction false} GroupHasNoTypeKey(h: string, fields: seq<Field>, H: Canonical -> string, reprUnhandled: bool)
    requires forall f :: f in fields ==> f.name != "_type"
    ensures KeyQuads(GroupQuads(h, FieldData(fields, H, reprUnhandled)), "_type") == []
  {
    var g := GroupQuads(h, FieldData(fields, H, reprUnhandled));
    if KeyQuads(g, "_type") != [] {
      var q := KeyQuads(g, "_type")[0];
      assert q in g && q.key == "_type";
      GroupKeysAreFieldNames(h, fields, H, reprUnhandled);
      assert false;
    }
  }

  /** Every quad of the group is keyed by one of the fields' names. */
  lemma {:induction false} GroupKeysAreFieldNames(h: string, fields: seq<Field>, H: Canonical -> string, reprUnhandled: bool)
    ensures forall q :: q in GroupQuads(h, FieldData(fields, H, reprUnhandled)) ==> exists f :: f in fields && f.name == q.key
    decreases |fields|
  {
    if fields != [] {
      var prefix := fields[..|fields| - 1];
      var last := fields[|fields| - 1];
      var d := Datum(last.value, H, reprUnhandled);
      var g := GroupQuads(h, FieldData(prefix, H, reprUnhandled));
      var tail: seq<Quad> := if d.Some? then DatumQuads(h, last.name, d.value) else [];
      GroupKeysAreFieldNames(h, prefix, H, reprUnhandled);
      GroupFieldsStep(h, fields, H, reprUnhandled);
      TailNamed(h, last.name, d);
      assert last in fields;
      forall q: Quad | q in g + tail ensures exists f :: f in fields && f.name == q.key {
        if q in g {
          var f :| f in prefix && f.name == q.key;
          assert f in fields;
        } else {
          assert q.key == last.name;
        }
      }
    }
  }

  /** Every quad of a possibly dropped datum is keyed by its field's name. */
  lemma TailNamed(h: string, name: string, d: Option<FieldDatum>)
    ensures forall q: Quad :: q in (if d.Some? then DatumQuads(h, name, d.value) else []) ==> q.key == name
  {
    if d.Some? {
      var r := DatumQuads(h, name, d.value);
      forall q | q in r ensures q.key == name {
        var j :| 0 <= j < |r| && r[j] == q;
      }
    }
  }

  /** Exactly one `_type` quad per node of the tree. */
  lemma {:induction false} OneTypeQuadPerNode(n: Node, H: Canonical -> string, reprUnhandled: bool)
    requires NoTypeField(n)
    ensures |KeyQuads(Encode(n, H, reprUnhandled).1, "_type")| == NodeCount(n)
    decreases n, 1
  {
    var h := Encode(n, H, reprUnhandled).0;
    var t := [Quad(h, "_type", None, Str(n.typeName))];
    var g := GroupQuads(h, FieldData(n.fields, H, reprUnhandled));
    EncodeParts(n, H, reprUnhandled);
    KeyQuadsAppend(ChildQuads(n.fields, H, reprUnhandled), t + g, "_type");
    KeyQuadsAppend(t, g, "_type");
    assert KeyQuads(t, "_type") == KeyQuads([], "_type") + t;
    GroupHasNoTypeKey(h, n.fields, H, reprUnhandled);
    FieldsTypeQuads(n, |n.fields|, H, reprUnhandled);
    assert n.fields[..|n.fields|] == n.fields;
  }

  lemma {:induction false} FieldsTypeQuads(n: Node, i: nat, H: Canonical -> string, reprUnhandled: bool)
    requires NoTypeField(n) && i <= |n.fields|
    ensures |KeyQuads(ChildQuads(n.fields[..i], H, reprUnhandled), "_type")| == FieldsNodeCount(n.fields[..i])
    decreases n, 0, i, 1
  {
    if i > 0 {
      var prefix := n.fields[..i];
      assert prefix[..i - 1] == n.fields[..i - 1];
      assert prefix[i - 1] == n.fields[i - 1];
      assert n.fields[i - 1] in n.fields;
      FieldsTypeQuads(n, i - 1, H, reprUnhandled);
      KeyQuadsAppend(ChildQuads(n.fields[..i - 1], H, reprUnhandled), ValueChildQuads(n.fields[i - 1].value, H, reprUnhandled), "_type");
      match n.fields[i - 1].value {
        case Child(c) =>
          OneTypeQuadPerNode(c, H, reprUnhandled);
        case ListOf(items) =>
          ItemsTypeQuads(n, i - 1, items, |items|, H, reprUnhandled);
          assert items[..|items|] == items;
        case Atomic(_) =>
        case Unhandled(_) =>
      }
    }
  }

  lemma {:induction false} ItemsTypeQuads(n: Node, i: nat, items: seq<Item>, j: nat, H: Canonical -> string, reprUnhandled: bool)
    requires NoTypeField(n) && i < |n.fields| && n.fields[i].value == ListOf(items) && j <= |items|
    ensures |KeyQuads(ItemsChildQuads(items[..j], H, reprUnhandled), "_type")| == ItemsNodeCount(items[..j])
    decreases n, 0, i + 1, 0, j
  {
    if j > 0 {
      var prefix := items[..j];
      assert prefix[..j - 1] == items[..j - 1];
      assert prefix[j - 1] == items[j - 1];
      assert n.fields[i] in n.fields;
      assert items[j - 1] in items;
      ItemsTypeQuads(n, i, items, j - 1, H, reprUnhandled);
      KeyQuadsAppend(ItemsChildQuads(items[..j - 1], H, reprUnhandled), ItemChildQuads(items[j - 1], H, reprUnhandled), "_type");
      match items[j - 1] {
        case ItemNode(m) =>
          OneTypeQuadPerNode(m, H, reprUnhandled);
        case ItemAtom(_) =>
      }
    }
  }

  // ----------------------------------------------------------------------------------------
  // The quads of each field
  // ----------------------------------------------------------------------------------------

  /** The quads a kept datum yields, as the field's kind of value says. */
  lemma DatumFollowsRule(h: string, name: string, v: Value, H: Canonical -> string, reprUnhandled: bool)
    ensures var d := Datum(v, H, reprUnhandled);
      FieldQuadsRule(h, name, v, if d.Some? then DatumQuads(h, name, d.value) else [], H, reprUnhandled)
  {
    match v {
      case ListOf(items) =>
        forall j | 0 <= j < |items|
          ensures ItemValues(items, H, reprUnhandled)[j]
            == if items[j].ItemNode? then Str(Encode(items[j].node, H, reprUnhandled).0) else items[j].atom
        {
          ItemValuesAt(items, j, H, reprUnhandled);
        }
      case Atomic(_) =>
      case Child(_) =>
      case Unhandled(_) =>
    }
  }

  /** A datum's quads are all keyed by its field. */
  lemma DatumQuadsKeyed(h: string, name: string, d: FieldDatum, key: string)
    ensures KeyQuads(DatumQuads(h, name, d), key) == if key == name then DatumQuads(h, name, d) else []
  {
    match d {
      case ScalarDatum(a) =>
        assert KeyQuads([Quad(h, name, None, a)], key) == KeyQuads([], key) + (if name == key then [Quad(h, name, None, a)] else []);
      case ListDatum(xs) =>
        IndexedKeyed(h, name, xs, key);
    }
  }

  lemma {:induction false} IndexedKeyed(h: string, name: string, xs: seq<Atom>, key: string)
    ensures KeyQuads(IndexedQuads(h, name, xs), key) == if key == name then IndexedQuads(h, name, xs) else []
    decreases |xs|
  {
    if xs != [] {
      var q := Quad(h, name, Some(|xs| - 1), xs[|xs| - 1]);
      IndexedKeyed(h, name, xs[..|xs| - 1], key);
      KeyQuadsAppend(IndexedQuads(h, name, xs[..|xs| - 1]), [q], key);
      assert KeyQuads([q], key) == KeyQuads([], key) + (if name == key then [q] else []);
    }
  }

  /** The group holds no quad for a name that no field has. */
  lemma {:induction false} GroupWithoutName(h: string, fields: seq<Field>, name: string, H: Canonical -> string, reprUnhandled: bool)
    requires forall k :: 0 <= k < |fields| ==> fields[k].name != name
    ensures KeyQuads(GroupQuads(h, FieldData(fields, H, reprUnhandled)), name) == []
  {
    var g := GroupQuads(h, FieldData(fields, H, reprUnhandled));
    if KeyQuads(g, name) != [] {
      var q := KeyQuads(g, name)[0];
      assert q in g && q.key == name;
      GroupKeysAreFieldNames(h, fields, H, reprUnhandled);
      assert false;
    }
  }

  /**
   * The quads of field `i` in its node's group: the quads its kept datum yields, in order, and
   * no others, when the field names are distinct.
   */
  lemma {:induction false} GroupQuadsOfField(h: string, fields: seq<Field>, i: nat, H: Canonical -> string, reprUnhandled: bool)
    requires DistinctNames(fields) && i < |fields|
    ensures var d := Datum(fields[i].value, H, reprUnhandled);
      KeyQuads(GroupQuads(h, FieldData(fields, H, reprUnhandled)), fields[i].name)
      == if d.Some? then DatumQuads(h, fields[i].name, d.value) else []
    decreases |fields|
  {
    var prefix := fields[..|fields| - 1];
    if i == |fields| - 1 {
      LastFieldQuads(h, fields, H, reprUnhandled);
    } else {
      assert DistinctNames(prefix);
      assert prefix[i] == fields[i];
      GroupQuadsOfField(h, prefix, i, H, reprUnhandled);
      EarlierFieldQuads(h, fields, i, H, reprUnhandled);
    }
  }

  /** The group's quads for a name: those of all fields but the last, then the last field's if it has the name. */
  lemma GroupKeyStep(h: string, fields: seq<Field>, name: string, H: Canonical -> string, reprUnhandled: bool)
    requires fields != []
    ensures var last := fields[|fields| - 1];
      var dl := Datum(last.value, H, reprUnhandled);
      var tail := if dl.Some? then DatumQuads(h, last.name, dl.value) else [];
      KeyQuads(GroupQuads(h, FieldData(fields, H, reprUnhandled)), name)
      == KeyQuads(GroupQuads(h, FieldData(fields[..|fields| - 1], H, reprUnhandled)), name)
         + (if name == last.name then tail else [])
  {
    var last := fields[|fields| - 1];
    var dl := Datum(last.value, H, reprUnhandled);
    var tail := if dl.Some? then DatumQuads(h, last.name, dl.value) else [];
    GroupFieldsStep(h, fields, H, reprUnhandled);
    KeyQuadsAppend(GroupQuads(h, FieldData(fields[..|fields| - 1], H, reprUnhandled)), tail, name);
    TailKeyed(h, last.name, dl, name);
  }

  lemma LastFieldQuads(h: string, fields: seq<Field>, H: Canonical -> string, reprUnhandled: bool)
    requires DistinctNames(fields) && fields != []
    ensures var last := fields[|fields| - 1];
      var d := Datum(last.value, H, reprUnhandled);
      KeyQuads(GroupQuads(h, FieldData(fields, H, reprUnhandled)), last.name)
      == if d.Some? then DatumQuads(h, last.name, d.value) else []
  {
    var prefix := fields[..|fields| - 1];
    var name := fields[|fields| - 1].name;
    GroupKeyStep(h, fields, name, H, reprUnhandled);
    assert forall k :: 0 <= k < |prefix| ==> prefix[k].name != name by {
      forall k | 0 <= k < |prefix| ensures prefix[k].name != name {
        assert prefix[k] == fields[k];
      }
    }
    GroupWithoutName(h, prefix, name, H, reprUnhandled);
    var d := Datum(fields[|fields| - 1].value, H, reprUnhandled);
    EmptyConcat(if d.Some? then DatumQuads(h, name, d.value) else []);
  }

  lemma EarlierFieldQuads(h: string, fields: seq<Field>, i: nat, H: Canonical -> string, reprUnhandled: bool)
    requires DistinctNames(fields) && i < |fields| - 1
    requires var d := Datum(fields[i].value, H, reprUnhandled);
      KeyQuads(GroupQuads(h, FieldData(fields[..|fields| - 1], H, reprUnhandled)), fields[i].name)
      == if d.Some? then DatumQuads(h, fields[i].name, d.value) else []
    ensures var d := Datum(fields[i].value, H, reprUnhandled);
      KeyQuads(GroupQuads(h, FieldData(fields, H, reprUnhandled)), fields[i].name)
      == if d.Some? then DatumQuads(h, fields[i].name, d.value) else []
  {
    var name := fields[i].name;
    GroupKeyStep(h, fields, name, H, reprUnhandled);
    assert fields[|fields| - 1].name != name;
    var g := KeyQuads(GroupQuads(h, FieldData(fields[..|fields| - 1], H, reprUnhandled)), name);
    assert g + [] == g;
  }

  /** The quads a possibly dropped datum yields for `key`: all of them for its own name, none otherwise. */
  lemma TailKeyed(h: string, name: string, d: Option<FieldDatum>, key: string)
    ensures var tail := if d.Some? then DatumQuads(h, name, d.value) else [];
      KeyQuads(tail, key) == if key == name then tail else []
  {
    if d.Some? {
      DatumQuadsKeyed(h, name, d.value, key);
    }
  }

  /**
   * Field `i` of a node yields, among the node's own quads: one quad with index `None` for an
   * atom; one with the child's hash, not its content, for a child; one per list element with
   * its position as index, a node element by its hash and any other raw; and for an unhandled
   * value nothing as written, its repr in the corrected encoder.
   */
  lemma FieldQuads(n: Node, i: nat, H: Canonical -> string, reprUnhandled: bool)
    requires DistinctNames(n.fields) && i < |n.fields| && n.fields[i].name != "_type"
    ensures FieldQuadsRule(Encode(n, H, reprUnhandled).0, n.fields[i].name, n.fields[i].value,
      KeyQuads(OwnQuads(n, H, reprUnhandled), n.fields[i].name), H, reprUnhandled)
  {
    var h := Encode(n, H, reprUnhandled).0;
    var t := [Quad(h, "_type", None, Str(n.typeName))];
    var g := GroupQuads(h, FieldData(n.fields, H, reprUnhandled));
    KeyQuadsAppend(t, g, n.fields[i].name);
    assert KeyQuads(t, n.fields[i].name) == KeyQuads([], n.fields[i].name) + [];
    GroupQuadsOfField(h, n.fields, i, H, reprUnhandled);
    DatumFollowsRule(h, n.fields[i].name, n.fields[i].value, H, reprUnhandled);
  }

  // ----------------------------------------------------------------------------------------
  // The hashed object
  // ----------------------------------------------------------------------------------------

  /** Fields never overwrite a base entry whose key no field has. */
  lemma {:induction false} ObjKeepsBase(base: Canonical, fields: seq<Field>, H: Canonical -> string, reprUnhandled: bool)
    requires forall f :: f in fields ==> f.name !in base
    ensures forall k :: k in base ==>
      (k in ObjOf(base, FieldData(fields, H, reprUnhandled)) && ObjOf(base, FieldData(fields, H, reprUnhandled))[k] == base[k])
    decreases |fields|
  {
    if fields != [] {
      var prefix := fields[..|fields| - 1];
      var last := fields[|fields| - 1];
      var d := Datum(last.value, H, reprUnhandled);
      assert last in fields;
      forall f | f in prefix ensures f.name !in base {
        assert f in fields;
      }
      ObjKeepsBase(base, prefix, H, reprUnhandled);
      ObjFieldsStep(base, fields, H, reprUnhandled);
    }
  }

  /**
   * Field `i`'s entry in the hashed object: its datum when it is kept (an empty list as `[]`),
   * and no entry at all when it is dropped, when the field names are distinct.
   */
  lemma {:induction false} ObjEntry(base: Canonical, fields: seq<Field>, i: nat, H: Canonical -> string, reprUnhandled: bool)
    requires DistinctNames(fields) && i < |fields| && fields[i].name !in base
    ensures var obj := ObjOf(base, FieldData(fields, H, reprUnhandled));
      var d := Datum(fields[i].value, H, reprUnhandled);
      (d.Some? ==> fields[i].name in obj && obj[fields[i].name] == JValueOf(d.value))
      && (d.None? ==> fields[i].name !in obj)
    decreases |fields|
  {
    var prefix := fields[..|fields| - 1];
    var last := fields[|fields| - 1];
    var dl := Datum(last.value, H, reprUnhandled);
    assert DistinctNames(prefix);
    ObjFieldsStep(base, fields, H, reprUnhandled);
    if i == |fields| - 1 {
      if dl.None? {
        ObjWithoutName(base, prefix, fields[i].name, H, reprUnhandled);
      }
    } else {
      ObjEntry(base, prefix, i, H, reprUnhandled);
    }
  }

  /** A name that no field has gets no entry beyond the base's. */
  lemma {:induction false} ObjWithoutName(base: Canonical, fields: seq<Field>, name: string, H: Canonical -> string, reprUnhandled: bool)
    requires name !in base && forall k :: 0 <= k < |fields| ==> fields[k].name != name
    ensures name !in ObjOf(base, FieldData(fields, H, reprUnhandled))
    decreases |fields|
  {
    if fields != [] {
      var prefix := fields[..|fields| - 1];
      var last := fields[|fields| - 1];
      ObjWithoutName(base, prefix, name, H, reprUnhandled);
      ObjFieldsStep(base, fields, H, reprUnhandled);
    }
  }

  /** The hashed object of a node: `_type`, and every field by its datum or, if dropped, absent. */
  lemma CanonicalEntries(n: Node, i: nat, H: Canonical -> string, reprUnhandled: bool)
    requires DistinctNames(n.fields) && i < |n.fields| && forall f :: f in n.fields ==> f.name != "_type"
    ensures var obj := CanonicalOf(n, H, reprUnhandled);
      var d := Datum(n.fields[i].value, H, reprUnhandled);
      Encode(n, H, reprUnhandled).0 == H(obj)
      && "_type" in obj && obj["_type"] == JAtom(Str(n.typeName))
      && (d.Some? ==> n.fields[i].name in obj && obj[n.fields[i].name] == JValueOf(d.value))
      && (d.None? ==> n.fields[i].name !in obj)
  {
    var base := map["_type" := JAtom(Str(n.typeName))];
    EncodeHashesCanonical(n, H, reprUnhandled);
    ObjKeepsBase(base, n.fields, H, reprUnhandled);
    assert "_type" in base;
    assert n.fields[i] in n.fields;
    ObjEntry(base, n.fields, i, H, reprUnhandled);
  }

  lemma EncodeHashesCanonical(n: Node, H: Canonical -> string, reprUnhandled: bool)
    ensures Encode(n, H, reprUnhandled).0 == H(CanonicalOf(n, H, reprUnhandled))
  {
  }

  /** An empty list emits no quads but is still hashed as `[]`. */
  lemma EmptyListHashedNotEmitted(n: Node, i: nat, H: Canonical -> string, reprUnhandled: bool)
    requires DistinctNames(n.fields) && i < |n.fields| && forall f :: f in n.fields ==> f.name != "_type"
    requires n.fields[i].value == ListOf([])
    ensures n.fields[i].name in CanonicalOf(n, H, reprUnhandled)
      && CanonicalOf(n, H, reprUnhandled)[n.fields[i].name] == JArray([])
    ensures KeyQuads(OwnQuads(n, H, reprUnhandled), n.fields[i].name) == []
  {
    CanonicalEntries(n, i, H, reprUnhandled);
    assert n.fields[i] in n.fields;
    FieldQuads(n, i, H, reprUnhandled);
  }

  // ----------------------------------------------------------------------------------------
  // The Merkle property
  // ----------------------------------------------------------------------------------------

  /** Fields with the same names and the same data give the same `field_data`. */
  lemma {:induction false} SameDataSameFieldData(f1: seq<Field>, f2: seq<Field>, H: Canonical -> string, reprUnhandled: bool)
    requires |f1| == |f2|
    requires forall k :: 0 <= k < |f1| ==>
      f1[k].name == f2[k].name && Datum(f1[k].value, H, reprUnhandled) == Datum(f2[k].value, H, reprUnhandled)
    ensures FieldData(f1, H, reprUnhandled) == FieldData(f2, H, reprUnhandled)
    decreases |f1|
  {
    if f1 != [] {
      SameDataSameFieldData(f1[..|f1| - 1], f2[..|f2| - 1], H, reprUnhandled);
    }
  }

  /**
   * Two field values that agree but for child subtrees, each swapped for one with the same
   * hash, whether the child is the field's value or an element of its list.
   */
  predicate SameUpToChildHashes(v1: Value, v2: Value, H: Canonical -> string, reprUnhandled: bool) {
    || v1 == v2
    || (v1.Child? && v2.Child? && Encode(v1.child, H, reprUnhandled).0 == Encode(v2.child, H, reprUnhandled).0)
    || (&& v1.ListOf? && v2.ListOf? && |v1.items| == |v2.items|
        && forall j :: 0 <= j < |v1.items| ==>
             || v1.items[j] == v2.items[j]
             || (v1.items[j].ItemNode? && v2.items[j].ItemNode?
                 && Encode(v1.items[j].node, H, reprUnhandled).0 == Encode(v2.items[j].node, H, reprUnhandled).0))
  }

  lemma SameUpToChildHashesSameDatum(v1: Value, v2: Value, H: Canonical -> string, reprUnhandled: bool)
    requires SameUpToChildHashes(v1, v2, H, reprUnhandled)
    ensures Datum(v1, H, reprUnhandled) == Datum(v2, H, reprUnhandled)
  {
    if v1 != v2 && v1.ListOf? && v2.ListOf? {
      var xs, ys := ItemValues(v1.items, H, reprUnhandled), ItemValues(v2.items, H, reprUnhandled);
      forall j | 0 <= j < |xs| ensures xs[j] == ys[j] {
        ItemValuesAt(v1.items, j, H, reprUnhandled);
        ItemValuesAt(v2.items, j, H, reprUnhandled);
      }
      assert xs == ys;
    }
  }

  /**
   * A node's hash and own quads depend on its children only through their hashes: swapping
   * child subtrees, held directly or in lists, for any others with the same hashes changes
   * neither.
   */
  lemma ChildrenOnlyByHash(n1: Node, n2: Node, H: Canonical -> string, reprUnhandled: bool)
    requires n1.typeName == n2.typeName && |n1.fields| == |n2.fields|
    requires forall k :: 0 <= k < |n1.fields| ==>
      n1.fields[k].name == n2.fields[k].name
      && SameUpToChildHashes(n1.fields[k].value, n2.fields[k].value, H, reprUnhandled)
    ensures Encode(n1, H, reprUnhandled).0 == Encode(n2, H, reprUnhandled).0
    ensures OwnQuads(n1, H, reprUnhandled) == OwnQuads(n2, H, reprUnhandled)
  {
    forall k | 0 <= k < |n1.fields|
      ensures Datum(n1.fields[k].value, H, reprUnhandled) == Datum(n2.fields[k].value, H, reprUnhandled)
    {
      SameUpToChildHashesSameDatum(n1.fields[k].value, n2.fields[k].value, H, reprUnhandled);
    }
    SameDataSameFieldData(n1.fields, n2.fields, H, reprUnhandled);
  }

  // ----------------------------------------------------------------------------------------
  // Fields of no handled type
  // ----------------------------------------------------------------------------------------

  /** SHA-256 of the canonical JSON text, idealised as collision-free. */
  ghost predicate Injective(H: Canonical -> string) {
    forall a, b :: H(a) == H(b) ==> a == b
  }

  /** Fields that yield the same child quads yield the same children's quads in order. */
  lemma {:induction false} SameChildQuads(f1: seq<Field>, f2: seq<Field>, H: Canonical -> string, reprUnhandled: bool)
    requires |f1| == |f2|
    requires forall k :: 0 <= k < |f1| ==> ValueChildQuads(f1[k].value, H, reprUnhandled) == ValueChildQuads(f2[k].value, H, reprUnhandled)
    ensures ChildQuads(f1, H, reprUnhandled) == ChildQuads(f2, H, reprUnhandled)
    decreases |f1|
  {
    if f1 != [] {
      SameChildQuads(f1[..|f1| - 1], f2[..|f2| - 1], H, reprUnhandled);
    }
  }

  /**
   * As written, a field of no handled type is invisible: two nodes that differ only in such
   * fields get the same hash and the same quads.
   */
  lemma UnhandledInvisibleAsWritten(n1: Node, n2: Node, H: Canonical -> string)
    requires n1.typeName == n2.typeName && |n1.fields| == |n2.fields|
    requires forall k :: 0 <= k < |n1.fields| ==>
      (n1.fields[k].name == n2.fields[k].name
       && (n1.fields[k].value == n2.fields[k].value || (n1.fields[k].value.Unhandled? && n2.fields[k].value.Unhandled?)))
    ensures Encode(n1, H, false) == Encode(n2, H, false)
  {
    SameDataSameFieldData(n1.fields, n2.fields, H, false);
    SameChildQuads(n1.fields, n2.fields, H, false);
  }

  /** `Constant(b'a')` and `Constant(b'b')` as the encoder sees them. */
  function BytesConstant(repr: string): Node {
    Node("Constant", [Field("value", Unhandled(repr)), Field("kind", Atomic(NoneValue))])
  }

  /** The collision: two different constants, one hash and one quad list, as written. */
  lemma BytesConstantsCollideAsWritten(H: Canonical -> string)
    ensures BytesConstant("b'a'") != BytesConstant("b'b'")
    ensures Encode(BytesConstant("b'a'"), H, false) == Encode(BytesConstant("b'b'"), H, false)
  {
    var n1, n2 := BytesConstant("b'a'"), BytesConstant("b'b'");
    assert n1.fields[0].value != n2.fields[0].value;
    UnhandledInvisibleAsWritten(n1, n2, H);
  }

  /**
   * With a collision-free hash, two nodes whose field `i` (of the same name) contributes
   * different data get different hashes: in particular a field kept by one and dropped by
   * the other.
   */
  lemma DifferentDatumDifferentHash(n1: Node, n2: Node, i: nat, H: Canonical -> string, reprUnhandled: bool)
    requires Injective(H)
    requires DistinctNames(n1.fields) && forall f :: f in n1.fields ==> f.name != "_type"
    requires DistinctNames(n2.fields) && forall f :: f in n2.fields ==> f.name != "_type"
    requires i < |n1.fields| && i < |n2.fields| && n1.fields[i].name == n2.fields[i].name
    requires Datum(n1.fields[i].value, H, reprUnhandled) != Datum(n2.fields[i].value, H, reprUnhandled)
    ensures Encode(n1, H, reprUnhandled).0 != Encode(n2, H, reprUnhandled).0
  {
    CanonicalEntries(n1, i, H, reprUnhandled);
    CanonicalEntries(n2, i, H, reprUnhandled);
    var name := n1.fields[i].name;
    var d1, d2 := Datum(n1.fields[i].value, H, reprUnhandled), Datum(n2.fields[i].value, H, reprUnhandled);
    if d1.Some? && d2.Some? {
      assert JValueOf(d1.value) != JValueOf(d2.value);
      assert CanonicalOf(n1, H, reprUnhandled)[name] != CanonicalOf(n2, H, reprUnhandled)[name];
    }
  }

  /**
   * Corrected, with a collision-free hash: a field holding an unhandled value hashes apart
   * from the same field holding a different unhandled value or any handled one (a `str`
   * spelling the same repr included).
   */
  lemma UnhandledHashedWhenCorrected(n1: Node, n2: Node, i: nat, H: Canonical -> string)
    requires Injective(H)
    requires DistinctNames(n1.fields) && forall f :: f in n1.fields ==> f.name != "_type"
    requires DistinctNames(n2.fields) && forall f :: f in n2.fields ==> f.name != "_type"
    requires i < |n1.fields| && i < |n2.fields| && n1.fields[i].name == n2.fields[i].name
    requires n1.fields[i].value.Unhandled? && n1.fields[i].value != n2.fields[i].value
    requires n2.fields[i].value.Atomic? ==> !n2.fields[i].value.atom.Repr?
    ensures Encode(n1, H, true).0 != Encode(n2, H, true).0
  {
    DifferentDatumDifferentHash(n1, n2, i, H, true);
  }

  /** The corrected encoder tells the two constants apart. */
  lemma BytesConstantsDistinctWhenCorrected(H: Canonical -> string)
    requires Injective(H)
    ensures Encode(BytesConstant("b'a'"), H, true).0 != Encode(BytesConstant("b'b'"), H, true).0
  {
    var n1, n2 := BytesConstant("b'a'"), BytesConstant("b'b'");
    assert n1.fields[1] == Field("kind", Atomic(NoneValue));
    UnhandledHashedWhenCorrected(n1, n2, 0, H);
  }

  /** `Constant('b\'a\'')`: the `str` that spells the repr of `b'a'`. */
  function StrConstant(s: string): Node {
    Node("Constant", [Field("value", Atomic(Str(s))), Field("kind", Atomic(NoneValue))])
  }

  /** The corrected encoder tells `b'a'` from the string `"b'a'"`. */
  lemma BytesAndStrDistinctWhenCorrected(H: Canonical -> string)
    requires Injective(H)
    ensures Encode(BytesConstant("b'a'"), H, true).0 != Encode(StrConstant("b'a'"), H, true).0
  {
    var n1, n2 := BytesConstant("b'a'"), StrConstant("b'a'");
    assert n1.fields[1] == Field("kind", Atomic(NoneValue)) && n2.fields[1] == n1.fields[1];
    UnhandledHashedWhenCorrected(n1, n2, 0, H);
  }
}
