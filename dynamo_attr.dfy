/**
 * The type-tagged attribute values of a DynamoDB stream record image, as the
 * two stream consumers receive them: each value carries exactly one type tag.
 * A nested map (`M`) keeps its entries in wire order; looking a key up finds
 * its last entry, as a JSON decoder that lets later keys win would.
 */
module DynamoAttr {
  import opened Wrappers

  datatype Attr =
    | S(s: string)
    | N(n: string)
    | BOOL(b: bool)
    | NULL
    | L(items: seq<Attr>)
    | M(fields: seq<(string, Attr)>)
      /** Any other tag (sets, binary): the value's textual form. */
    | Other(text: string)

  /** A top-level row image: attribute name to tagged value. */
  type Item = map<string, Attr>

  /** The value of the last entry named `key` in a nested map. */
  function Field(fields: seq<(string, Attr)>, key: string): (r: Option<Attr>)
    ensures r.Some? <==> exists i :: 0 <= i < |fields| && fields[i].0 == key
    ensures r.Some? ==> exists i :: 0 <= i < |fields| && fields[i] == (key, r.value) &&
                          forall j :: i < j < |fields| ==> fields[j].0 != key
  {
    if fields == [] then None
    else if fields[|fields| - 1].0 == key then Some(fields[|fields| - 1].1)
    else Field(fields[..|fields| - 1], key)
  }

  /** `attrs.get(key, {}).get('S', '')`: the string under `key`, or "" when it is missing or not a string. */
  function StringOr(attr: Option<Attr>): (r: string)
    ensures attr.Some? && attr.value.S? ==> r == attr.value.s
    ensures !(attr.Some? && attr.value.S?) ==> r == ""
  {
    if attr.Some? && attr.value.S? then attr.value.s else ""
  }

  /** `attrs.get(key, {}).get('N', dflt)`: the numeric literal under `key`, or `dflt`. */
  function NumberOr(attr: Option<Attr>, dflt: string): (r: string)
    ensures attr.Some? && attr.value.N? ==> r == attr.value.n
    ensures !(attr.Some? && attr.value.N?) ==> r == dflt
  {
    if attr.Some? && attr.value.N? then attr.value.n else dflt
  }

  function Lookup(item: Item, key: string): Option<Attr> {
    if key in item then Some(item[key]) else None
  }

  function Join(parts: seq<string>, sep: string): string {
    if parts == [] then ""
    else if |parts| == 1 then parts[0]
    else parts[0] + sep + Join(parts[1..], sep)
  }

  /**
   * Python's `str()` of the value dictionary, `{'S': 'x'}` and so on. String
   * escaping by `repr` is not reproduced.
   */
  function Render(a: Attr): string
    decreases a, 1
  {
    match a
    case S(s) => "{'S': '" + s + "'}"
    case N(n) => "{'N': '" + n + "'}"
    case BOOL(b) => "{'BOOL': " + (if b then "True" else "False") + "}"
    case NULL => "{'NULL': True}"
    case L(items) => "{'L': [" + Join(RenderAll(a, items), ", ") + "]}"
    case M(fields) => "{'M': {" + Join(RenderFields(a, fields), ", ") + "}}"
    case Other(text) => text
  }

  function RenderAll(ghost parent: Attr, items: seq<Attr>): (r: seq<string>)
    requires forall x :: x in items ==> x < parent
    ensures |r| == |items|
    decreases parent, 0, |items|
  {
    if items == [] then []
    else
      assert items[0] in items;
      assert forall x :: x in items[1..] ==> x in items;
      [Render(items[0])] + RenderAll(parent, items[1..])
  }

  function RenderFields(ghost parent: Attr, fields: seq<(string, Attr)>): (r: seq<string>)
    requires forall kv :: kv in fields ==> kv.1 < parent
    ensures |r| == |fields|
    decreases parent, 0, |fields|
  {
    if fields == [] then []
    else
      assert fields[0] in fields;
      assert forall kv :: kv in fields[1..] ==> kv in fields;
      ["'" + fields[0].0 + "': " + Render(fields[0].1)] + RenderFields(parent, fields[1..])
  }
}
