/**
 * The purchase-stream archiver: every change to a purchase is formatted as a
 * self-contained document (buyer, date, product lines, totals, metadata) and
 * written to an object store under a date-partitioned key.
 *
 * The object store is an oracle `Store`: given the key and the document it
 * says whether the write succeeded. The archive itself is the map from keys
 * to the documents written so far. The two clock readings a record uses
 * (the ISO time in the metadata and the compact stamp in the key) are a
 * parameter of the record.
 */
module PurchaseArchive {
  import opened Wrappers
  import opened Numerals
  import opened DynamoAttr

  /** The `dynamodb` part of a stream record: its new and old images, each possibly absent. */
  datatype Images = Images(newImage: Option<Item>, oldImage: Option<Item>)

  /** A stream record; each key of the record's dictionary may be absent. */
  datatype StreamRecord = StreamRecord(
    eventName: Option<string>, eventSource: Option<string>, awsRegion: Option<string>,
    dynamodb: Option<Images>)

  /** The two readings of the clock a record uses: `isoformat()` and `%Y%m%d_%H%M%S`. */
  datatype Stamp = Stamp(iso: string, compact: string)

  /** One product line of the archived purchase. */
  datatype LineItem = LineItem(codigo: string, nombre: string, precioUnitario: real, cantidad: int)

  datatype Metadata = Metadata(
    eventName: string, eventSource: string, awsRegion: string,
    processedAt: string, processedBy: string, stage: string)

  datatype Summary = Summary(totalProductos: nat, totalCantidad: int, totalPrecio: real, moneda: string)

  /** The archived document (`compra_data`). */
  datatype Purchase = Purchase(
    compraId: string, userId: string, tenantId: string, fecha: string,
    productos: seq<LineItem>, metadata: Metadata, resumen: Summary)

  const ProcessedBy := "lambda-streams-actualizador-compras"

  /** The image a record is formatted from: the new one when present, else the old one. */
  function ChosenImage(images: Images): (r: Option<Item>)
    ensures images.newImage.Some? ==> r == images.newImage
    ensures images.newImage.None? ==> r == images.oldImage
  {
    if images.newImage.Some? then images.newImage else images.oldImage
  }

  /**
   * One `M` entry of the product list as a line, or `None` when its
   * `precio_unitario` is not a float literal or its `cantidad` not an int
   * literal (a missing one reads as "0").
   */
  function LineOf(fields: seq<(string, Attr)>): (r: Option<LineItem>)
    ensures r.Some? <==> ParseDecimal(NumberOr(Field(fields, "precio_unitario"), "0")).Some? &&
                         ParseInteger(NumberOr(Field(fields, "cantidad"), "0")).Some?
    ensures r.Some? ==> r.value.codigo == StringOr(Field(fields, "codigo")) &&
                        r.value.nombre == StringOr(Field(fields, "nombre"))
  {
    var precio := ParseDecimal(NumberOr(Field(fields, "precio_unitario"), "0"));
    var cantidad := ParseInteger(NumberOr(Field(fields, "cantidad"), "0"));
    if precio.Some? && cantidad.Some? then
      Some(LineItem(StringOr(Field(fields, "codigo")), StringOr(Field(fields, "nombre")), precio.value, cantidad.value))
    else None
  }

  /** An element of the product list that does not make the conversion raise. */
  predicate Convertible(a: Attr) {
    !a.M? || LineOf(a.fields).Some?
  }

  /** The product list, walked in order; `None` once a line's conversion raises. */
  function DecodeProducts(items: seq<Attr>): Option<seq<LineItem>>
    decreases |items|
  {
    if items == [] then Some([])
    else
      var n := |items| - 1;
      match DecodeProducts(items[..n])
      case None => None
      case Some(lines) =>
        if !items[n].M? then Some(lines)
        else
          match LineOf(items[n].fields)
          case None => None
          case Some(line) => Some(lines + [line])
  }

  /** The `M` entries of a list, in order: an independent statement of which elements become lines. */
  function MEntries(items: seq<Attr>): (r: seq<seq<(string, Attr)>>)
    ensures |r| <= |items|
  {
    if items == [] then []
    else
      var n := |items| - 1;
      if items[n].M? then MEntries(items[..n]) + [items[n].fields] else MEntries(items[..n])
  }

  /** The product list of an image: the `L` value under `productos`, or none. */
  function ProductList(image: Item): seq<Attr> {
    if "productos" in image && image["productos"].L? then image["productos"].items else []
  }

  function TotalCantidad(lines: seq<LineItem>): int {
    if lines == [] then 0 else TotalCantidad(lines[..|lines| - 1]) + lines[|lines| - 1].cantidad
  }

  function TotalPrecio(lines: seq<LineItem>): real {
    if lines == [] then 0.0
    else TotalPrecio(lines[..|lines| - 1]) + lines[|lines| - 1].precioUnitario * (lines[|lines| - 1].cantidad as real)
  }

  /** The `resumen` block. */
  function Summarize(lines: seq<LineItem>): (s: Summary)
    ensures s.totalProductos == |lines|
    ensures s.totalCantidad == TotalCantidad(lines) && s.totalPrecio == TotalPrecio(lines)
    ensures s.moneda == "USD"
  {
    Summary(|lines|, TotalCantidad(lines), TotalPrecio(lines), "USD")
  }

  /**
   * `format_compra_data`: the document, or `None` when the record has no
   * `dynamodb` part, no image, misses one of the metadata keys, or a product
   * line does not convert.
   */
  function Format(rec: StreamRecord, stamp: Stamp, stage: string): (r: Option<Purchase>)
    ensures r.Some? ==> rec.dynamodb.Some? && ChosenImage(rec.dynamodb.value).Some?
    ensures r.Some? ==> var image := ChosenImage(rec.dynamodb.value).value;
                        r.value.compraId == StringOr(Lookup(image, "compra_id")) &&
                        r.value.userId == StringOr(Lookup(image, "user_id")) &&
                        r.value.tenantId == StringOr(Lookup(image, "tenant_id")) &&
                        r.value.fecha == StringOr(Lookup(image, "fecha")) &&
                        Some(r.value.productos) == DecodeProducts(ProductList(image))
    ensures r.Some? ==> r.value.resumen == Summarize(r.value.productos)
    ensures r.Some? ==> rec.eventName.Some? && r.value.metadata.eventName == rec.eventName.value &&
                        r.value.metadata.processedAt == stamp.iso && r.value.metadata.stage == stage
  {
    if rec.dynamodb.None? || ChosenImage(rec.dynamodb.value).None? then None
    else if rec.eventName.None? || rec.eventSource.None? || rec.awsRegion.None? then None
    else
      var image := ChosenImage(rec.dynamodb.value).value;
      match DecodeProducts(ProductList(image))
      case None => None
      case Some(lines) =>
        Some(Purchase(
          StringOr(Lookup(image, "compra_id")), StringOr(Lookup(image, "user_id")),
          StringOr(Lookup(image, "tenant_id")), StringOr(Lookup(image, "fecha")),
          lines,
          Metadata(rec.eventName.value, rec.eventSource.value, rec.awsRegion.value, stamp.iso, ProcessedBy, stage),
          Summarize(lines)))
  }

  /** `format_compra_data` as it runs: the product lines are appended one list element at a time. */
  method FormatCompraData(rec: StreamRecord, stamp: Stamp, stage: string) returns (r: Option<Purchase>)
    ensures r == Format(rec, stamp, stage)
  {
    if rec.dynamodb.None? || ChosenImage(rec.dynamodb.value).None? {
      return None;
    }
    if rec.eventName.None? || rec.eventSource.None? || rec.awsRegion.None? {
      return None;
    }
    var image := ChosenImage(rec.dynamodb.value).value;
    var lines := ConvertProducts(ProductList(image));
    if lines.None? {
      return None;
    }
    r := Some(Purchase(
      StringOr(Lookup(image, "compra_id")), StringOr(Lookup(image, "user_id")),
      StringOr(Lookup(image, "tenant_id")), StringOr(Lookup(image, "fecha")),
      lines.value,
      Metadata(rec.eventName.value, rec.eventSource.value, rec.awsRegion.value, stamp.iso, ProcessedBy, stage),
      Summarize(lines.value)));
  }

  /** The loop over the product list: map elements become lines, other elements are skipped, a bad map ends it. */
  method ConvertProducts(items: seq<Attr>) returns (r: Option<seq<LineItem>>)
    ensures r == DecodeProducts(items)
  {
    var lines: seq<LineItem> := [];
    var i := 0;
    while i < |items|
      invariant 0 <= i <= |items|
      invariant DecodeProducts(items[..i]) == Some(lines)
    {
      assert items[..i + 1][..i] == items[..i];
      if items[i].M? {
        var line := LineOf(items[i].fields);
        if line.None? {
          DecodeFailurePersists(items, i + 1);
          return None;
        }
        lines := lines + [line.value];
      }
      i := i + 1;
    }
    assert items[..|items|] == items;
    return Some(lines);
  }

  /** Once a prefix of the product list fails to convert, the whole list does. */
  lemma {:induction false} DecodeFailurePersists(items: seq<Attr>, k: nat)
    requires k <= |items| && DecodeProducts(items[..k]).None?
    ensures DecodeProducts(items).None?
    decreases |items| - k
  {
    if k < |items| {
      assert items[..k + 1][..k] == items[..k];
      DecodeFailurePersists(items, k + 1);
    } else {
      assert items[..k] == items;
    }
  }

  /** The product list converts exactly when every one of its `M` entries does. */
  lemma {:induction false} DecodeSucceedsIff(items: seq<Attr>)
    ensures DecodeProducts(items).Some? <==> forall i :: 0 <= i < |items| ==> Convertible(items[i])
  {
    if items != [] {
      var n := |items| - 1;
      var prefix := items[..n];
      DecodeSucceedsIff(prefix);
      DecodeStep(items);
      if DecodeProducts(items).Some? {
        forall i | 0 <= i < |items| ensures Convertible(items[i]) {
          if i < n { assert prefix[i] == items[i]; }
        }
      } else if DecodeProducts(prefix).None? {
        var j :| 0 <= j < n && !Convertible(prefix[j]);
        assert items[j] == prefix[j];
      }
    }
  }

  lemma DecodeStep(items: seq<Attr>)
    requires items != []
    ensures DecodeProducts(items).Some? <==>
            DecodeProducts(items[..|items| - 1]).Some? && Convertible(items[|items| - 1])
  {
  }

  /**
   * Only the `M` entries become lines, one each, in list order; every other
   * element of the list is skipped.
   */
  lemma {:induction false} LinesAreMEntriesInOrder(items: seq<Attr>)
    requires DecodeProducts(items).Some?
    ensures var lines := DecodeProducts(items).value;
            |lines| == |MEntries(items)| &&
            forall k :: 0 <= k < |lines| ==> LineOf(MEntries(items)[k]) == Some(lines[k])
  {
    if items != [] {
      var n := |items| - 1;
      var prev := items[..n];
      assert DecodeProducts(prev).Some?;
      LinesAreMEntriesInOrder(prev);
      var lines, before := DecodeProducts(items).value, DecodeProducts(prev).value;
      if items[n].M? {
        assert MEntries(items) == MEntries(prev) + [items[n].fields];
        assert lines == before + [LineOf(items[n].fields).value];
      } else {
        assert MEntries(items) == MEntries(prev) && lines == before;
      }
    }
  }

  /** `total_cantidad` and `total_precio` add up line by line over a split of the list. */
  lemma {:induction false} TotalsAreAdditive(a: seq<LineItem>, b: seq<LineItem>)
    ensures TotalCantidad(a + b) == TotalCantidad(a) + TotalCantidad(b)
    ensures TotalPrecio(a + b) == TotalPrecio(a) + TotalPrecio(b)
    decreases |b|
  {
    if b == [] {
      assert a + b == a;
    } else {
      var n := |b| - 1;
      assert (a + b)[..|a + b| - 1] == a + b[..n];
      assert (a + b)[|a + b| - 1] == b[n];
      TotalsAreAdditive(a, b[..n]);
    }
  }

  /** A list of lines that each carry a non-negative quantity totals a non-negative quantity. */
  lemma {:induction false} TotalCantidadNonNegative(lines: seq<LineItem>)
    requires forall k :: 0 <= k < |lines| ==> lines[k].cantidad >= 0
    ensures TotalCantidad(lines) >= 0
  {
    if lines != [] {
      TotalCantidadNonNegative(lines[..|lines| - 1]);
    }
  }

  /** Formatting succeeds exactly when the record has an image, its metadata keys and convertible lines. */
  lemma FormatSucceedsIff(rec: StreamRecord, stamp: Stamp, stage: string)
    ensures Format(rec, stamp, stage).Some? <==>
              rec.dynamodb.Some? && ChosenImage(rec.dynamodb.value).Some? &&
              rec.eventName.Some? && rec.eventSource.Some? && rec.awsRegion.Some? &&
              forall i :: 0 <= i < |ProductList(ChosenImage(rec.dynamodb.value).value)| ==>
                Convertible(ProductList(ChosenImage(rec.dynamodb.value).value)[i])
  {
    if rec.dynamodb.Some? && ChosenImage(rec.dynamodb.value).Some? {
      DecodeSucceedsIff(ProductList(ChosenImage(rec.dynamodb.value).value));
    }
  }

  // ---------------------------------------------------------------------------
  // The object key

  /** A calendar date. */
  datatype Date = Date(year: nat, month: nat, day: nat)

  predicate IsLeap(y: nat) {
    y % 4 == 0 && (y % 100 != 0 || y % 400 == 0)
  }

  function DaysInMonth(y: nat, m: nat): (d: nat)
    requires 1 <= m <= 12
    ensures 28 <= d <= 31
  {
    if m == 2 then (if IsLeap(y) then 29 else 28)
    else if m == 4 || m == 6 || m == 9 || m == 11 then 30
    else 31
  }

  /** A date `datetime` accepts: years 1 to 9999 and a day that exists in its month. */
  predicate ValidDate(d: Date) {
    1 <= d.year <= 9999 && 1 <= d.month <= 12 && 1 <= d.day <= DaysInMonth(d.year, d.month)
  }

  /** `fecha.split(' ')[0]`: the part of the date before the first space, or all of it. */
  function DatePart(fecha: string): (r: string)
    ensures |r| <= |fecha| && r == fecha[..|r|]
    ensures forall k :: 0 <= k < |r| ==> r[k] != ' '
    ensures r == fecha || (|r| < |fecha| && fecha[|r|] == ' ')
  {
    fecha[..Find(fecha, ' ')]
  }

  /** One or two decimal digits. */
  predicate ShortNumeral(s: string) {
    1 <= |s| <= 2 && AllDigits(s)
  }

  /**
   * `datetime.strptime(s, '%Y-%m-%d')` on ASCII text: exactly four digits of
   * year, a month of one or two digits valued 1 to 12, a day of one or two
   * digits valued 1 to 31, nothing after it, and a date that exists.
   */
  function ParseDate(s: string): (r: Option<Date>)
    ensures r.Some? ==> ValidDate(r.value)
  {
    if |s| < 5 || !AllDigits(s[..4]) || s[4] != '-' then None
    else
      var rest := s[5..];
      var dash := Find(rest, '-');
      if dash == |rest| then None
      else
        var month, day := rest[..dash], rest[dash + 1..];
        if !ShortNumeral(month) || !ShortNumeral(day) then None
        else
          DigitsValueBound(s[..4]);
          var d := Date(DigitsValue(s[..4]), DigitsValue(month), DigitsValue(day));
          if !(1 <= d.month <= 12 && 1 <= d.day <= 31) then None
          else if d.year < 1 || d.day > DaysInMonth(d.year, d.month) then None
          else Some(d)
  }

  /** `{n:02d}` for a number below 100. */
  function Pad2(n: nat): (r: string)
    requires n < 100
    ensures |r| == 2 && AllDigits(r)
  {
    [DigitChar(n / 10), DigitChar(n % 10)]
  }

  /** The four-digit form of a year, as a purchase date writes it. */
  function Pad4(n: nat): (r: string)
    requires n < 10000
    ensures |r| == 4 && AllDigits(r)
  {
    [DigitChar(n / 1000), DigitChar(n / 100 % 10), DigitChar(n / 10 % 10), DigitChar(n % 10)]
  }

  /** `YYYY-MM-DD`. */
  function FormatDate(d: Date): string
    requires ValidDate(d)
  {
    Pad4(d.year) + "-" + Pad2(d.month) + "-" + Pad2(d.day)
  }

  lemma Pad2Value(n: nat)
    requires n < 100
    ensures DigitsValue(Pad2(n)) == n
  {
    var s := Pad2(n);
    assert s[..1] == [DigitChar(n / 10)];
    assert s[..1][..0] == [];
    assert DigitsValue(s[..1]) == n / 10;
    assert DigitsValue(s) == DigitsValue(s[..1]) * 10 + n % 10;
  }

  lemma Pad4Value(n: nat)
    requires n < 10000
    ensures DigitsValue(Pad4(n)) == n
  {
    var s := Pad4(n);
    assert s[..1][..0] == [];
    assert DigitsValue(s[..1]) == n / 1000;
    assert s[..2][..1] == s[..1];
    assert n / 100 == n / 1000 * 10 + n / 100 % 10;
    assert DigitsValue(s[..2]) == n / 100;
    assert s[..3][..2] == s[..2];
    assert n / 10 == n / 100 * 10 + n / 10 % 10;
    assert DigitsValue(s[..3]) == n / 10;
    assert s[..3] == s[..|s| - 1];
    assert n == n / 10 * 10 + n % 10;
  }

  /** Every valid date is read back from its `YYYY-MM-DD` form. */
  lemma ParseFormattedDate(d: Date)
    requires ValidDate(d)
    ensures ParseDate(FormatDate(d)) == Some(d)
  {
    var s := FormatDate(d);
    Pad4Value(d.year);
    Pad2Value(d.month);
    Pad2Value(d.day);
    assert s[..4] == Pad4(d.year);
    var rest := s[5..];
    assert rest == Pad2(d.month) + "-" + Pad2(d.day);
    assert IsDigit(rest[0]) && IsDigit(rest[1]) && rest[2] == '-';
    assert Find(rest, '-') == 2;
    assert rest[..2] == Pad2(d.month) && rest[3..] == Pad2(d.day);
  }

  /** A date with a time after a space is read by its date part alone. */
  lemma DateBeforeSpace(d: Date, time: string)
    requires ValidDate(d)
    ensures ParseDate(DatePart(FormatDate(d) + " " + time)) == Some(d)
  {
    var s := FormatDate(d);
    assert forall k :: 0 <= k < |s| ==> s[k] != ' ' by {
      forall k | 0 <= k < |s| ensures s[k] != ' ' {
        if k < 4 { assert s[k] == Pad4(d.year)[k]; }
        else if 5 <= k < 7 { assert s[k] == Pad2(d.month)[k - 5]; }
        else if 8 <= k { assert s[k] == Pad2(d.day)[k - 8]; }
      }
    }
    var f := s + " " + time;
    assert f[|s|] == ' ';
    assert Find(f, ' ') == |s|;
    assert f[..|s|] == s;
    ParseFormattedDate(d);
  }

  /**
   * `s` spells `d` as `strptime`'s `%Y-%m-%d` reads it: four digits of year,
   * then a month and a day of one or two digits each, separated by dashes.
   */
  predicate SpellsDate(s: string, d: Date, y: string, m: string, dd: string) {
    |y| == 4 && AllDigits(y) && ShortNumeral(m) && ShortNumeral(dd) &&
    DigitsValue(y) == d.year && DigitsValue(m) == d.month && DigitsValue(dd) == d.day &&
    s == y + "-" + m + "-" + dd
  }

  /** An accepted text spells the valid date it gives. */
  lemma AcceptedDateIsSpelled(s: string) returns (y: string, m: string, dd: string)
    requires ParseDate(s).Some?
    ensures SpellsDate(s, ParseDate(s).value, y, m, dd)
  {
    var rest := s[5..];
    var dash := Find(rest, '-');
    y, m, dd := s[..4], rest[..dash], rest[dash + 1..];
    assert rest == m + "-" + dd;
    assert s == y + "-" + rest;
  }

  /** Every spelling of a valid date is accepted and gives that date. */
  lemma SpelledDateIsAccepted(s: string, d: Date, y: string, m: string, dd: string)
    requires ValidDate(d) && SpellsDate(s, d, y, m, dd)
    ensures ParseDate(s) == Some(d)
  {
    assert s[..4] == y && s[4] == '-';
    var rest := s[5..];
    assert rest == m + "-" + dd;
    assert forall k :: 0 <= k < |m| ==> rest[k] == m[k] && IsDigit(m[k]) && rest[k] != '-';
    assert rest[|m|] == '-';
    assert Find(rest, '-') == |m|;
    assert rest[..|m|] == m && rest[|m| + 1..] == dd;
  }

  /** The texts `ParseDate` accepts, and the date each one gives: exactly the spellings of valid dates. */
  lemma ParseDateIff(s: string, d: Date)
    ensures ParseDate(s) == Some(d) <==> ValidDate(d) && exists y, m, dd :: SpellsDate(s, d, y, m, dd)
  {
    if ParseDate(s) == Some(d) {
      var y, m, dd := AcceptedDateIsSpelled(s);
    }
    if ValidDate(d) && exists y, m, dd :: SpellsDate(s, d, y, m, dd) {
      var y, m, dd :| SpellsDate(s, d, y, m, dd);
      SpelledDateIsAccepted(s, d, y, m, dd);
    }
  }

  /** `strptime` also reads a month and a day without their leading zero. */
  lemma UnpaddedDateIsAccepted()
    ensures ParseDate("2024-1-5") == Some(Date(2024, 1, 5))
  {
    Pad4Value(2024);
    assert Pad4(2024) == "2024";
    assert DigitsValue("1") == 1 && DigitsValue("5") == 5;
    assert "2024-1-5" == "2024" + "-" + "1" + "-" + "5";
    SpelledDateIsAccepted("2024-1-5", Date(2024, 1, 5), "2024", "1", "5");
  }

  /** An empty date is rejected. */
  lemma EmptyDateDoesNotParse()
    ensures ParseDate(DatePart("")) == None
  {
  }

  /**
   * `str.lower()` of one character, on ASCII letters only. The event names it
   * is applied to are INSERT, MODIFY and REMOVE, where the two agree.
   */
  function LowerChar(c: char): char {
    if 'A' <= c <= 'Z' then (c as int + 32) as char else c
  }

  /** `str.lower()` on ASCII letters. */
  function Lower(s: string): (r: string)
    ensures |r| == |s|
    ensures forall k :: 0 <= k < |s| ==> r[k] == LowerChar(s[k])
  {
    if s == [] then [] else [LowerChar(s[0])] + Lower(s[1..])
  }

  /** The fallback key used when the purchase date does not parse. */
  function ErrorKey(eventName: string, stamp: Stamp): string {
    "compras/error/" + Lower(eventName) + "_" + stamp.compact + ".json"
  }

  /** The key of a purchase whose date parsed. */
  function DatedKey(p: Purchase, d: Date, eventName: string, stamp: Stamp): string
    requires ValidDate(d)
  {
    "compras/" + p.tenantId + "/" + NatToString(d.year) + "/" + Pad2(d.month) + "/" + Pad2(d.day) + "/" +
    Lower(eventName) + "_" + p.compraId + "_" + stamp.compact + ".json"
  }

  /** `generate_s3_key`: partitioned by tenant and date, or the fallback key. */
  function S3Key(p: Purchase, eventName: string, stamp: Stamp): (key: string)
    ensures ParseDate(DatePart(p.fecha)).Some? ==> key == DatedKey(p, ParseDate(DatePart(p.fecha)).value, eventName, stamp)
    ensures ParseDate(DatePart(p.fecha)).None? ==> key == ErrorKey(eventName, stamp)
  {
    match ParseDate(DatePart(p.fecha))
    case Some(d) => DatedKey(p, d, eventName, stamp)
    case None => ErrorKey(eventName, stamp)
  }

  /** A purchase dated in its canonical form is filed under that year, month and day. */
  lemma KeyOfDatedPurchase(p: Purchase, d: Date, time: string, eventName: string, stamp: Stamp)
    requires ValidDate(d) && p.fecha == FormatDate(d) + " " + time
    ensures S3Key(p, eventName, stamp) ==
              "compras/" + p.tenantId + "/" + NatToString(d.year) + "/" + Pad2(d.month) + "/" + Pad2(d.day) + "/" +
              Lower(eventName) + "_" + p.compraId + "_" + stamp.compact + ".json"
  {
    DateBeforeSpace(d, time);
  }

  /** A purchase without a date is filed under the error prefix. */
  lemma UndatedPurchaseUsesFallback(p: Purchase, eventName: string, stamp: Stamp)
    requires p.fecha == ""
    ensures S3Key(p, eventName, stamp) == "compras/error/" + Lower(eventName) + "_" + stamp.compact + ".json"
  {
  }

  // ---------------------------------------------------------------------------
  // Records and the batch

  /** The object store's answer to one write. */
  type Store = (string, Purchase) -> bool

  /** The archive: every document written so far, by key. */
  type Archive = map<string, Purchase>

  /** The per-record result dictionary. */
  datatype RecordResult =
    | Saved(compraId: string, tenantId: string, s3Key: string, eventName: string)
    | Unformatted(eventName: string)
    | Unsaved(compraId: string, eventName: string)
      /** An exception escaped: the record had no `eventName`. */
    | Raised(error: string, eventName: string)
  {
    predicate Success() { Saved? }

    function Error(): (e: Option<string>)
      ensures e.None? <==> Success()
    {
      match this
      case Saved(_, _, _, _) => None
      case Unformatted(_) => Some("No se pudo formatear los datos de la compra")
      case Unsaved(_, _) => Some("Error guardando en S3")
      case Raised(error, _) => Some(error)
    }
  }

  /** `process_stream_record`: the result and the archive after it. */
  function ProcessStreamRecord(rec: StreamRecord, stamp: Stamp, stage: string, store: Store, archive: Archive): (r: (RecordResult, Archive))
    ensures !r.0.Success() ==> r.1 == archive
    ensures r.0.Success() ==> r.0.s3Key in r.1 && r.1 == archive[r.0.s3Key := r.1[r.0.s3Key]]
  {
    match rec.eventName
    case None => (Raised("'eventName'", "unknown"), archive)
    case Some(eventName) =>
      match Format(rec, stamp, stage)
      case None => (Unformatted(eventName), archive)
      case Some(p) =>
        var key := S3Key(p, eventName, stamp);
        if store(key, p) then (Saved(p.compraId, p.tenantId, key, eventName), archive[key := p])
        else (Unsaved(p.compraId, eventName), archive)
  }

  /**
   * A record that does not format fails and consults the store not at all:
   * its outcome is the same whatever the store would answer.
   */
  lemma UnformattedWritesNothing(rec: StreamRecord, stamp: Stamp, stage: string, store: Store, other: Store, archive: Archive)
    requires Format(rec, stamp, stage).None?
    ensures var (result, after) := ProcessStreamRecord(rec, stamp, stage, store, archive);
            !result.Success() && after == archive &&
            (result, after) == ProcessStreamRecord(rec, stamp, stage, other, archive)
  {
  }

  /** A formatted record succeeds exactly when the store accepts it, and then it is archived under its key. */
  lemma SavedIffStored(rec: StreamRecord, stamp: Stamp, stage: string, store: Store, archive: Archive)
    requires Format(rec, stamp, stage).Some?
    ensures var p := Format(rec, stamp, stage).value;
            var key := S3Key(p, rec.eventName.value, stamp);
            var (result, after) := ProcessStreamRecord(rec, stamp, stage, store, archive);
            (result.Success() <==> store(key, p)) &&
            (result.Success() ==> result.s3Key == key && after == archive[key := p]) &&
            (!result.Success() ==> after == archive)
  {
  }

  /** The result of a record does not depend on what was archived before it. */
  lemma ResultIgnoresArchive(rec: StreamRecord, stamp: Stamp, stage: string, store: Store, a1: Archive, a2: Archive)
    ensures ProcessStreamRecord(rec, stamp, stage, store, a1).0 == ProcessStreamRecord(rec, stamp, stage, store, a2).0
  {
  }

  /** The `results` dictionary. */
  datatype Results = Results(processed: nat, successful: nat, failed: nat, details: seq<RecordResult>)

  /** The fold over the records in order; record `i` reads the clock as `clock(i)`. */
  function ArchiveBatch(records: seq<StreamRecord>, clock: nat -> Stamp, stage: string, store: Store, archive: Archive): (Results, Archive)
    decreases |records|
  {
    if records == [] then (Results(0, 0, 0, []), archive)
    else
      var n := |records| - 1;
      var (r, a) := ArchiveBatch(records[..n], clock, stage, store, archive);
      var (result, after) := ProcessStreamRecord(records[n], clock(n), stage, store, a);
      (Results(r.processed + 1, r.successful + (if result.Success() then 1 else 0),
               r.failed + (if result.Success() then 0 else 1), r.details + [result]),
       after)
  }

  /** Every record is counted once and has its own result, in input order. */
  lemma {:induction false} BatchAccountsForEveryRecord(records: seq<StreamRecord>, clock: nat -> Stamp, stage: string, store: Store, archive: Archive)
    ensures var r := ArchiveBatch(records, clock, stage, store, archive).0;
            r.processed == r.successful + r.failed == |records| && |r.details| == |records| &&
            forall i :: 0 <= i < |records| ==>
              r.details[i] == ProcessStreamRecord(records[i], clock(i), stage, store, archive).0
  {
    if records != [] {
      var n := |records| - 1;
      BatchAccountsForEveryRecord(records[..n], clock, stage, store, archive);
      var (prev, a) := ArchiveBatch(records[..n], clock, stage, store, archive);
      var result := ProcessStreamRecord(records[n], clock(n), stage, store, a).0;
      ResultIgnoresArchive(records[n], clock(n), stage, store, a, archive);
      var r := ArchiveBatch(records, clock, stage, store, archive).0;
      assert r.details == prev.details + [result];
      forall i | 0 <= i < |records|
        ensures r.details[i] == ProcessStreamRecord(records[i], clock(i), stage, store, archive).0
      {
        if i < n {
          assert records[i] == records[..n][i];
          assert r.details[i] == prev.details[i];
        } else {
          assert r.details[i] == result;
        }
      }
    }
  }

  /** The handler's answer; the bucket name, stage and request id of the body are left out. */
  datatype Response = Response(statusCode: int, results: Results)

  /** `lambda_handler`: every record in order, the counters and the details updated after each. */
  method LambdaHandler(records: seq<StreamRecord>, clock: nat -> Stamp, stage: string, store: Store, archive: Archive)
    returns (response: Response, finalArchive: Archive)
    ensures response.statusCode == 200
    ensures (response.results, finalArchive) == ArchiveBatch(records, clock, stage, store, archive)
    ensures response.results.processed == response.results.successful + response.results.failed == |records|
  {
    var processed, successful, failed := 0, 0, 0;
    var details: seq<RecordResult> := [];
    finalArchive := archive;
    var i := 0;
    while i < |records|
      invariant 0 <= i <= |records|
      invariant processed == successful + failed == i
      invariant (Results(processed, successful, failed, details), finalArchive) ==
                ArchiveBatch(records[..i], clock, stage, store, archive)
    {
      assert records[..i + 1][..i] == records[..i];
      processed := processed + 1;
      var (result, after) := ProcessStreamRecord(records[i], clock(i), stage, store, finalArchive);
      finalArchive := after;
      if result.Success() {
        successful := successful + 1;
      } else {
        failed := failed + 1;
      }
      details := details + [result];
      i := i + 1;
    }
    assert records[..|records|] == records;
    response := Response(200, Results(processed, successful, failed, details));
  }
}
