/**
 * The record decoder of the product search projector: a DynamoDB row image
 * (attribute name to type-tagged value) becomes a flat row of plain values.
 * Decoding never fails: a number literal that does not parse is kept as its
 * raw text, and a value of any other tag is kept as its textual form.
 */
module ProductDecoder {
  import opened Wrappers
  import opened Numerals
  import opened DynamoAttr

  /** A decoded Python value: `str`, `float`, `bool` or `None`. */
  datatype Value = Text(text: string) | Number(number: real) | Boolean(truth: bool) | Null

  /** A decoded row image. */
  type Row = map<string, Value>

  /** The decoding of one tagged value. */
  function DecodeValue(a: Attr): (v: Value)
    // a string is kept as it is
    ensures a.S? ==> v == Text(a.s)
    // a number literal becomes its value, or stays raw text when it does not parse
    ensures a.N? ==> (v.Number? <==> ParseDecimal(a.n).Some?)
    ensures a.N? && v.Number? ==> Some(v.number) == ParseDecimal(a.n)
    ensures a.N? && !v.Number? ==> v == Text(a.n)
    ensures a.BOOL? ==> v == Boolean(a.b)
    ensures a.NULL? ==> v == Null
    // every other tag falls back to the value's textual form
    ensures (a.L? || a.M? || a.Other?) ==> v == Text(Render(a))
  {
    match a
    case S(s) => Text(s)
    case N(n) => (match ParseDecimal(n) case Some(r) => Number(r) case None => Text(n))
    case BOOL(b) => Boolean(b)
    case NULL => Null
    case _ => Text(Render(a))
  }

  /** The decoded row: the same attribute names, each value decoded on its own. */
  function Decode(item: Item): (row: Row)
    ensures row.Keys == item.Keys
    ensures forall k :: k in item ==> row[k] == DecodeValue(item[k])
  {
    map k | k in item :: DecodeValue(item[k])
  }

  /** `parse_dynamodb_item`: builds the row one attribute at a time. */
  method ParseItem(item: Item) returns (result: Row)
    ensures result.Keys == item.Keys
    ensures forall k :: k in item ==> result[k] == DecodeValue(item[k])
    ensures result == Decode(item)
  {
    result := map[];
    var pending := item.Keys;
    while pending != {}
      invariant pending <= item.Keys
      invariant result.Keys == item.Keys - pending
      invariant forall k :: k in result ==> result[k] == DecodeValue(item[k])
      decreases pending
    {
      var key :| key in pending;
      result := result[key := DecodeValue(item[key])];
      pending := pending - {key};
    }
  }

  /** A natural-number literal decodes to its value. */
  lemma NumberLiteralDecodes(n: nat)
    ensures DecodeValue(N(NatToString(n))) == Number(n as real)
  {
    DecimalOfNatLiteral(n);
  }

  /**
   * One malformed field does not disturb the others: changing the attribute
   * under one name changes the decoded row under that name only.
   */
  lemma DecodeIsFieldwise(item: Item, key: string, a: Attr)
    ensures Decode(item[key := a]) == Decode(item)[key := DecodeValue(a)]
  {
    var lhs := Decode(item[key := a]);
    var rhs := Decode(item)[key := DecodeValue(a)];
    assert lhs.Keys == rhs.Keys;
    forall k | k in lhs ensures lhs[k] == rhs[k] {
      if k != key { assert k in item; }
    }
  }
}
