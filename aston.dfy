/**
 * `ast_to_aston`: the content-addressed encoding of a syntax tree as quads
 * `(content_hash, field, index, value)`, children before their parent, each child replaced by
 * its hash. The canonical JSON text and its SHA-256 are one function `H` of the canonical
 * object. `reprUnhandled` chooses between the encoder as written (`false`: a field whose value
 * is of no handled type is dropped) and the corrected one (`true`: it is kept as its repr).
 */
module Aston {
  import opened Wrappers

  /**
   * The values kept as they are: `None`, `str`, `int`, `float` (opaque) and `bool`; and, in the
   * corrected encoder only, the repr of a value of no handled type, tagged so that it cannot be
   * taken for a string.
   */
  datatype Atom = NoneValue | Str(s: string) | Int(i: int) | Float(repr: string) | Bool(b: bool) | Repr(text: string)

  /** An element of a list field: a node, or any other value, kept raw. */
  datatype Item = ItemNode(node: Node) | ItemAtom(atom: Atom)

  /**
   * The value of a field: an atom, one child node, a list, or a value of a type the encoder
   * does not handle (`bytes`, `Ellipsis`, `complex`), given by its repr.
   */
  datatype Value = Atomic(atom: Atom) | Child(child: Node) | ListOf(items: seq<Item>) | Unhandled(repr: string)

  /** One `(field, value)` pair of `ast.iter_fields`. */
  datatype Field = Field(name: string, value: Value)

  /** A node: its class name and its fields in `ast.iter_fields` order. */
  datatype Node = Node(typeName: string, fields: seq<Field>)

  /** A value of the hashed JSON object. */
  datatype JValue = JAtom(atom: Atom) | JArray(elems: seq<Atom>)

  /** The hashed object, `_type` and one entry per kept field; keys are sorted when serialised. */
  type Canonical = map<string, JValue>

  datatype Quad = Quad(hash: string, key: string, index: Option<nat>, value: Atom)

  /** What `field_data` records for a kept field: one scalar, or the list of item values. */
  datatype FieldDatum = ScalarDatum(value: Atom) | ListDatum(values: seq<Atom>)

  // ----------------------------------------------------------------------------------------
  // The encoding, in the order the source appends
  // ----------------------------------------------------------------------------------------

  /** The node's content hash and all quads of its subtree. */
  function Encode(n: Node, H: Canonical -> string, reprUnhandled: bool): (string, seq<Quad>) {
    var data := FieldData(n.fields, H, reprUnhandled);
    var h := H(ObjOf(map["_type" := JAtom(Str(n.typeName))], data));
    (h, ChildQuads(n.fields, H, reprUnhandled) + [Quad(h, "_type", None, Str(n.typeName))] + GroupQuads(h, data))
  }

  /** The kept fields and what `field_data` says about each, in field order. */
  function FieldData(fields: seq<Field>, H: Canonical -> string, reprUnhandled: bool)
    : seq<(string, FieldDatum)>
  {
    if fields == [] then []
    else
      var last := fields[|fields| - 1];
      assert last in fields;
      var d := Datum(last.value, H, reprUnhandled);
      FieldData(fields[..|fields| - 1], H, reprUnhandled) + (if d.Some? then [(last.name, d.value)] else [])
  }

  /** What a field value contributes, if it is kept. */
  function Datum(v: Value, H: Canonical -> string, reprUnhandled: bool): Option<FieldDatum> {
    match v
    case Atomic(a) => Some(ScalarDatum(a))
    case Child(c) => Some(ScalarDatum(Str(Encode(c, H, reprUnhandled).0)))
    case ListOf(items) => Some(ListDatum(ItemValues(items, H, reprUnhandled)))
    case Unhandled(r) => if reprUnhandled then Some(ScalarDatum(Repr(r))) else None
  }

  /** The values of a list field: each node replaced by its hash, every other item raw. */
  function ItemValues(items: seq<Item>, H: Canonical -> string, reprUnhandled: bool): (r: seq<Atom>)
    ensures |r| == |items|
  {
    if items == [] then []
    else
      var it := items[|items| - 1];
      assert it in items;
      ItemValues(items[..|items| - 1], H, reprUnhandled) + [ItemValue(it, H, reprUnhandled)]
  }

  /** A list item's value: a node's hash, or the item itself. */
  function ItemValue(it: Item, H: Canonical -> string, reprUnhandled: bool): Atom {
    match it
    case ItemNode(m) => Str(Encode(m, H, reprUnhandled).0)
    case ItemAtom(a) => a
  }

  /** The hashed object: the `_type` entry, then each kept field assigned in order. */
  function ObjOf(base: Canonical, data: seq<(string, FieldDatum)>): Canonical {
    if data == [] then base
    else
      var (name, d) := data[|data| - 1];
      ObjOf(base, data[..|data| - 1])[name := JValueOf(d)]
  }

  function JValueOf(d: FieldDatum): JValue {
    match d
    case ScalarDatum(a) => JAtom(a)
    case ListDatum(xs) => JArray(xs)
  }

  /** The quads of the children's subtrees, field by field and item by item. */
  function ChildQuads(fields: seq<Field>, H: Canonical -> string, reprUnhandled: bool): seq<Quad> {
    if fields == [] then []
    else
      var last := fields[|fields| - 1];
      assert last in fields;
      ChildQuads(fields[..|fields| - 1], H, reprUnhandled) + ValueChildQuads(last.value, H, reprUnhandled)
  }

  function ValueChildQuads(v: Value, H: Canonical -> string, reprUnhandled: bool): seq<Quad> {
    match v
    case Child(c) => Encode(c, H, reprUnhandled).1
    case ListOf(items) => ItemsChildQuads(items, H, reprUnhandled)
    case _ => []
  }

  function ItemsChildQuads(items: seq<Item>, H: Canonical -> string, reprUnhandled: bool): seq<Quad> {
    if items == [] then []
    else
      var it := items[|items| - 1];
      assert it in items;
      ItemsChildQuads(items[..|items| - 1], H, reprUnhandled) + ItemChildQuads(it, H, reprUnhandled)
  }

  function ItemChildQuads(it: Item, H: Canonical -> string, reprUnhandled: bool): seq<Quad> {
    match it
    case ItemNode(m) => Encode(m, H, reprUnhandled).1
    case ItemAtom(_) => []
  }

  /** The node's own quads after the `_type` quad, from `field_data` in order. */
  function GroupQuads(h: string, data: seq<(string, FieldDatum)>): seq<Quad> {
    if data == [] then []
    else GroupQuads(h, data[..|data| - 1]) + DatumQuads(h, data[|data| - 1].0, data[|data| - 1].1)
  }

  /** A scalar gives one quad with index `None`; a list one quad per element, indexed from 0. */
  function DatumQuads(h: string, name: string, d: FieldDatum): (r: seq<Quad>)
    ensures d.ScalarDatum? ==> r == [Quad(h, name, None, d.value)]
    ensures d.ListDatum? ==> |r| == |d.values| && forall j :: 0 <= j < |r| ==> r[j] == Quad(h, name, Some(j), d.values[j])
  {
    match d
    case ScalarDatum(a) => [Quad(h, name, None, a)]
    case ListDatum(xs) => IndexedQuads(h, name, xs)
  }

  function IndexedQuads(h: string, name: string, xs: seq<Atom>): (r: seq<Quad>)
    ensures |r| == |xs|
    ensures forall j :: 0 <= j < |xs| ==> r[j] == Quad(h, name, Some(j), xs[j])
  {
    if xs == [] then [] else IndexedQuads(h, name, xs[..|xs| - 1]) + [Quad(h, name, Some(|xs| - 1), xs[|xs| - 1])]
  }

  // ----------------------------------------------------------------------------------------
  // ast_to_aston
  // ----------------------------------------------------------------------------------------

  /** One more field: its child quads and its datum, if kept, come last. */
  lemma FieldStep(fields: seq<Field>, i: nat, H: Canonical -> string, reprUnhandled: bool)
    requires i < |fields|
    ensures ChildQuads(fields[..i + 1], H, reprUnhandled)
      == ChildQuads(fields[..i], H, reprUnhandled) + ValueChildQuads(fields[i].value, H, reprUnhandled)
    ensures var d := Datum(fields[i].value, H, reprUnhandled);
      FieldData(fields[..i + 1], H, reprUnhandled)
      == FieldData(fields[..i], H, reprUnhandled) + (if d.Some? then [(fields[i].name, d.value)] else [])
  {
    assert fields[..i + 1][..i] == fields[..i];
  }

  /** One more item: its child quads and its value come last. */
  lemma ItemStep(items: seq<Item>, j: nat, H: Canonical -> string, reprUnhandled: bool)
    requires j < |items|
    ensures ItemsChildQuads(items[..j + 1], H, reprUnhandled)
      == ItemsChildQuads(items[..j], H, reprUnhandled) + ItemChildQuads(items[j], H, reprUnhandled)
    ensures ItemValues(items[..j + 1], H, reprUnhandled) == ItemValues(items[..j], H, reprUnhandled) + [ItemValue(items[j], H, reprUnhandled)]
  {
    assert items[..j + 1][..j] == items[..j];
  }

  /** One more kept field: it is assigned last in the hashed object. */
  lemma ObjStep(base: Canonical, data: seq<(string, FieldDatum)>, name: string, d: FieldDatum)
    ensures ObjOf(base, data + [(name, d)]) == ObjOf(base, data)[name := JValueOf(d)]
  {
    assert (data + [(name, d)])[..|data|] == data;
  }

  /** `Encode` in the three parts the method assembles. */
  lemma EncodeParts(n: Node, H: Canonical -> string, reprUnhandled: bool)
    ensures var data := FieldData(n.fields, H, reprUnhandled);
      var h := H(ObjOf(map["_type" := JAtom(Str(n.typeName))], data));
      Encode(n, H, reprUnhandled)
      == (h, ChildQuads(n.fields, H, reprUnhandled) + ([Quad(h, "_type", None, Str(n.typeName))] + GroupQuads(h, data)))
  {
    var data := FieldData(n.fields, H, reprUnhandled);
    var h := H(ObjOf(map["_type" := JAtom(Str(n.typeName))], data));
    var a, t, g := ChildQuads(n.fields, H, reprUnhandled), [Quad(h, "_type", None, Str(n.typeName))], GroupQuads(h, data);
    assert a + t + g == a + (t + g);
  }

  /**
   * `ast_to_aston`: one loop over the fields building the hashed object and `field_data`
   * while appending the children's quads, then the node's own quads from `field_data`.
   */
  method AstToAston(n: Node, H: Canonical -> string, reprUnhandled: bool) returns (contentHash: string, allTuples: seq<Quad>)
    ensures (contentHash, allTuples) == Encode(n, H, reprUnhandled)
    decreases n, 1
  {
    allTuples := [];
    var base := map["_type" := JAtom(Str(n.typeName))];
    var obj := base;
    var fieldData: seq<(string, FieldDatum)> := [];
    var i := 0;
    while i < |n.fields|
      invariant 0 <= i <= |n.fields|
      invariant allTuples == ChildQuads(n.fields[..i], H, reprUnhandled)
      invariant fieldData == FieldData(n.fields[..i], H, reprUnhandled)
      invariant obj == ObjOf(base, fieldData)
    {
      FieldStep(n.fields, i, H, reprUnhandled);
      var childTuples, datum := FieldToAston(n, i, H, reprUnhandled);
      allTuples := allTuples + childTuples;
      if datum.Some? {
        ObjStep(base, fieldData, n.fields[i].name, datum.value);
        obj := obj[n.fields[i].name := JValueOf(datum.value)];
        fieldData := fieldData + [(n.fields[i].name, datum.value)];
      }
      i := i + 1;
    }
    assert n.fields[..i] == n.fields;
    contentHash := H(obj);
    var nodeTuples := NodeTuples(contentHash, n.typeName, fieldData);
    EncodeParts(n, H, reprUnhandled);
    allTuples := allTuples + nodeTuples;
  }

  /**
   * The body of the field loop for field `i`: the quads of the child subtrees it holds, and
   * what goes into the hashed object and `field_data` (nothing for an unhandled value unless
   * `reprUnhandled`).
   */
  method FieldToAston(n: Node, i: nat, H: Canonical -> string, reprUnhandled: bool)
    returns (childTuples: seq<Quad>, datum: Option<FieldDatum>)
    requires i < |n.fields|
    ensures childTuples == ValueChildQuads(n.fields[i].value, H, reprUnhandled)
    ensures datum == Datum(n.fields[i].value, H, reprUnhandled)
    decreases n, 0
  {
    assert n.fields[i] in n.fields;
    match n.fields[i].value {
      case Atomic(a) =>
        childTuples, datum := [], Some(ScalarDatum(a));
      case ListOf(items) =>
        childTuples := [];
        var listItems: seq<Atom> := [];
        var j := 0;
        while j < |items|
          invariant 0 <= j <= |items|
          invariant childTuples == ItemsChildQuads(items[..j], H, reprUnhandled)
          invariant listItems == ItemValues(items[..j], H, reprUnhandled)
        {
          ItemStep(items, j, H, reprUnhandled);
          assert items[j] in items;
          match items[j] {
            case ItemNode(m) =>
              var childHash, tuples := AstToAston(m, H, reprUnhandled);
              childTuples := childTuples + tuples;
              listItems := listItems + [Str(childHash)];
            case ItemAtom(a) =>
              listItems := listItems + [a];
          }
          j := j + 1;
        }
        assert items[..j] == items;
        datum := Some(ListDatum(listItems));
      case Child(c) =>
        var childHash;
        childHash, childTuples := AstToAston(c, H, reprUnhandled);
        datum := Some(ScalarDatum(Str(childHash)));
      case Unhandled(r) =>
        childTuples := [];
        datum := if reprUnhandled then Some(ScalarDatum(Repr(r))) else None;
    }
  }

  /** The node's own quads: the `_type` quad, then those of `field_data` in order. */
  method NodeTuples(contentHash: string, typeName: string, fieldData: seq<(string, FieldDatum)>)
    returns (nodeTuples: seq<Quad>)
    ensures nodeTuples == [Quad(contentHash, "_type", None, Str(typeName))] + GroupQuads(contentHash, fieldData)
  {
    nodeTuples := [Quad(contentHash, "_type", None, Str(typeName))];
    nodeTuples := AppendGroup(nodeTuples, contentHash, fieldData);
  }

  /** The loop over `field_data`, appending each entry's quads. */
  method AppendGroup(nodeTuples: seq<Quad>, contentHash: string, fieldData: seq<(string, FieldDatum)>)
    returns (r: seq<Quad>)
    ensures r == nodeTuples + GroupQuads(contentHash, fieldData)
  {
    r := nodeTuples;
    var k := 0;
    while k < |fieldData|
      invariant 0 <= k <= |fieldData|
      invariant r == nodeTuples + GroupQuads(contentHash, fieldData[..k])
    {
      GroupStep(contentHash, fieldData, k);
      AppendAssoc(nodeTuples, GroupQuads(contentHash, fieldData[..k]), DatumQuads(contentHash, fieldData[k].0, fieldData[k].1));
      r := AppendDatum(r, contentHash, fieldData[k].0, fieldData[k].1);
      k := k + 1;
    }
    assert fieldData[..k] == fieldData;
  }

  lemma AppendAssoc<T>(a: seq<T>, b: seq<T>, c: seq<T>)
    ensures (a + b) + c == a + (b + c)
  {
  }

  lemma GroupStep(h: string, data: seq<(string, FieldDatum)>, k: nat)
    requires k < |data|
    ensures GroupQuads(h, data[..k + 1]) == GroupQuads(h, data[..k]) + DatumQuads(h, data[k].0, data[k].1)
  {
    assert data[..k + 1][..k] == data[..k];
  }

  /** The quads of one `field_data` entry appended. */
  method AppendDatum(nodeTuples: seq<Quad>, contentHash: string, field: string, datum: FieldDatum) returns (r: seq<Quad>)
    ensures r == nodeTuples + DatumQuads(contentHash, field, datum)
  {
    match datum {
      case ScalarDatum(a) =>
        r := nodeTuples + [Quad(contentHash, field, None, a)];
      case ListDatum(xs) =>
        r := AppendIndexed(nodeTuples, contentHash, field, xs);
    }
  }

  /** The loop over a list's values: one quad each, with its position as index. */
  method AppendIndexed(nodeTuples: seq<Quad>, contentHash: string, field: string, xs: seq<Atom>) returns (r: seq<Quad>)
    ensures r == nodeTuples + IndexedQuads(contentHash, field, xs)
  {
    r := nodeTuples;
    var e := 0;
    while e < |xs|
      invariant 0 <= e <= |xs|
      invariant r == nodeTuples + IndexedQuads(contentHash, field, xs[..e])
    {
      assert xs[..e + 1][..e] == xs[..e];
      r := r + [Quad(contentHash, field, Some(e), xs[e])];
      e := e + 1;
    }
    assert xs[..e] == xs;
  }
}
