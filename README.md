# Multi-tenant storefront: verified model of its core logic

This project models in Dafny the sequential core of a multi-tenant storefront
built from serverless functions and a React client, and proves properties of
the model. It covers five pieces.

- **Product search projector** (`SearchIndex`, `SearchSync`, `ProductDecoder`).
  This function consumes the product table's change stream and mirrors it
  into the tenant's Elasticsearch `productos` index. It decodes each
  type-tagged row image into a flat row. It resolves the tenant's endpoint,
  falling back to `default`. It probes the cluster's health before any write.
  It then issues a PUT (INSERT), an update with `doc_as_upsert` (MODIFY) or a
  DELETE (REMOVE). An unrecognised event is a successful no-op. The batch
  counts successes and failures, never aborts, and always answers 200.
- **Purchase-stream archiver** (`PurchaseArchive`). Every change to a purchase
  becomes a document with its product lines and totals. The document is
  written to an object store under a key partitioned by tenant and date, or
  under a fallback key when the date does not parse.
- **Storefront helpers** (`Storefront`, `FuzzySearch`, `AccountForms`):
  - the cart operations and the "last chance" shelf filter;
  - the Levenshtein distance of the fuzzy search, filled row by row in a
    matrix;
  - the registration-form validation and the error-message table.
- **Product listing** (`ProductListing`). This is the manual offset/limit
  pagination of a full table scan, including `hasMore` and `nextOffset` and
  the rule that a `limit` of 0 means "no limit".
- **Purchase registration** (`PurchaseRegistration`). The handler checks each
  requested line, checks its stock and decrements it in the product table,
  one line at a time. It stops at the first failure without rolling back.
  Only a request whose lines all passed writes a purchase record.

Shared pieces:
- `Wrappers` holds `Option`.
- `DynamoAttr` holds the tagged attribute values of a stream image.
- `Numerals` models Python's `int()`/`float()` on strings, digit strings, and
  `str()` of integers.
- `JsText` models ECMAScript's white space, `trim` and `parseInt`.

External effects are parameters of the model:
- The HTTP transport is an oracle `Server` that yields the final reply for a
  request against an endpoint's current index.
- The object store is an oracle `Store` that answers whether a write
  succeeded.
- The token middleware's verdict is a parameter `TokenCheck`.
- Clocks and generated identifiers are parameters.

The health check succeeds only on status 200; any other 2xx status counts as
unhealthy.

## Model

Source paths below are relative to the repository root.

| member | source | states |
|---|---|---|
| ProductDecoder.DecodeValue | elasticsearch-vm/lambdas/actualizar_productos_elasticsearch.py:240-252 | S keeps its string; N becomes its number exactly when the literal parses as a float, and stays raw text otherwise; BOOL gives the boolean; NULL gives None; any other tag gives the value's textual form; no tag fails |
| ProductDecoder.Decode | elasticsearch-vm/lambdas/actualizar_productos_elasticsearch.py:235-254 | the decoded row has exactly the item's attribute names, and each value is decoded on its own |
| ProductDecoder.ParseItem | elasticsearch-vm/lambdas/actualizar_productos_elasticsearch.py:237-254 | the key-by-key loop ends with the same key set as the item and every value decoded, i.e. with the row `Decode` specifies |
| ProductDecoder.NumberLiteralDecodes | elasticsearch-vm/lambdas/actualizar_productos_elasticsearch.py:242-244 | the decimal literal of a natural number decodes to that number |
| ProductDecoder.DecodeIsFieldwise | elasticsearch-vm/lambdas/actualizar_productos_elasticsearch.py:239-252 | replacing one attribute changes the decoded row under that name only, so one malformed field never disturbs the others |
| SearchIndex.ParseEndpoints | elasticsearch-vm/lambdas/actualizar_productos_elasticsearch.py:27-36 | a setting that parses to an object gives its entries; an unset or unparsable setting gives the empty table |
| SearchIndex.NewManager | elasticsearch-vm/lambdas/actualizar_productos_elasticsearch.py:23-24 | every tenant named in the configuration resolves to its own address, and any resolved address is one the configuration lists; an unusable setting resolves nothing |
| SearchIndex.Manager.GetEndpoint | elasticsearch-vm/lambdas/actualizar_productos_elasticsearch.py:51-56 | the tenant's own entry when a string tenant has one, else the `default` entry, else none; any answer is one of the configured addresses |
| SearchIndex.UnusableConfigResolvesNothing | elasticsearch-vm/lambdas/actualizar_productos_elasticsearch.py:29-36 | with an unset or unparsable setting no tenant resolves to an endpoint |
| SearchIndex.Identifier | elasticsearch-vm/lambdas/actualizar_productos_elasticsearch.py:70-73 | a document identifier exists exactly when `codigo` is present and truthy, and it is that value |
| SearchIndex.ToInt | elasticsearch-vm/lambdas/actualizar_productos_elasticsearch.py:81 | `int()` of a float truncates toward zero (the largest integer not above a non-negative value, the smallest not below a negative one); of a string it is Python's integer literal parse; of a boolean 0 or 1; of None it raises |
| SearchIndex.BuildDoc | elasticsearch-vm/lambdas/actualizar_productos_elasticsearch.py:76-88 | a document is built exactly when `float(precio)` and `int(cantidad)` both succeed (defaults 0); its `precio` and `cantidad` are those conversions, `codigo` is the row's (None when absent), the seven descriptive fields are the row's values with '' defaults, and the timestamp is the record's time |
| SearchIndex.Send | elasticsearch-vm/lambdas/actualizar_productos_elasticsearch.py:91-99 | exactly one request is sent; success is decided by the reply alone; the write lands whole or not at all; an accepted write has landed, and a failed one the cluster did not carry out leaves the index as it was |
| SearchIndex.IndexProduct | elasticsearch-vm/lambdas/actualizar_productos_elasticsearch.py:67-103 | without an identifier or a buildable document: failure and no request; otherwise exactly one PUT of the whole document, successful iff 200 or 201; on success the index holds the document under the identifier, and on failure it holds it or is unchanged |
| SearchIndex.UpdateProduct | elasticsearch-vm/lambdas/actualizar_productos_elasticsearch.py:105-144 | as IndexProduct, with one update request carrying `doc_as_upsert` |
| SearchIndex.DeleteProduct | elasticsearch-vm/lambdas/actualizar_productos_elasticsearch.py:146-161 | exactly one DELETE; success iff 200 or 404; after a success the identifier is gone and nothing else changed; a failed delete leaves the index either unchanged or without that identifier |
| SearchIndex.DeleteIsIdempotent | elasticsearch-vm/lambdas/actualizar_productos_elasticsearch.py:152 | against a well-behaved cluster, deleting twice succeeds both times, and the second delete changes nothing |
| SearchIndex.UpsertCreatesMissing | elasticsearch-vm/lambdas/actualizar_productos_elasticsearch.py:114-135 | the update of a document the index lacks succeeds and creates it |
| SearchIndex.PlainUpdateOfMissingFails | elasticsearch-vm/lambdas/actualizar_productos_elasticsearch.py:128 | without the upsert flag the same update would be refused and create nothing, which is why the flag is sent |
| SearchSync.KindOf | elasticsearch-vm/lambdas/actualizar_productos_elasticsearch.py:166-204 | INSERT, MODIFY and REMOVE are recognised exactly by their names, and every other name by none |
| SearchSync.Target | elasticsearch-vm/lambdas/actualizar_productos_elasticsearch.py:173-178 | a write target exists iff the tenant (default `default`) resolves to a non-empty address, and it is that address |
| SearchSync.Write | elasticsearch-vm/lambdas/actualizar_productos_elasticsearch.py:180-225 | the write a kind calls for sends at most one request, always a write; sending none means failure with the index unchanged |
| SearchSync.Dispatch | elasticsearch-vm/lambdas/actualizar_productos_elasticsearch.py:168-225 | at most two requests, the first being the health probe, all to the record's resolved endpoint |
| SearchSync.ProcessRecord | elasticsearch-vm/lambdas/actualizar_productos_elasticsearch.py:163-233 | a record sends at most two requests, all to one endpoint; its behaviour per kind is stated by the lemmas below |
| SearchSync.UnknownEventIsNoOp | elasticsearch-vm/lambdas/actualizar_productos_elasticsearch.py:227-229 | an unrecognised or missing event name succeeds, sends nothing and changes no index |
| SearchSync.WritesAreGated | elasticsearch-vm/lambdas/actualizar_productos_elasticsearch.py:168-218 | for every kind: no endpoint means failure with nothing sent; an unhealthy endpoint means failure with only the probe sent; no index changes in either case |
| SearchSync.WriteImpliesHealthyTarget | elasticsearch-vm/lambdas/actualizar_productos_elasticsearch.py:174-184 | any write request that is sent is the second request; it goes to the resolved endpoint, right after a probe of that endpoint that answered 200 |
| SearchSync.InsertDispatch | elasticsearch-vm/lambdas/actualizar_productos_elasticsearch.py:168-184 | INSERT past the gate: a missing identifier or unbuildable document fails after the probe; otherwise probe then PUT of the new image's document, successful iff 200 or 201 |
| SearchSync.ModifyDispatch | elasticsearch-vm/lambdas/actualizar_productos_elasticsearch.py:186-202 | MODIFY past the gate: the same, with an upsert update of the new image's document |
| SearchSync.RemoveDispatch | elasticsearch-vm/lambdas/actualizar_productos_elasticsearch.py:204-225 | REMOVE past the gate reads the old image: a missing identifier fails only after the probe; otherwise probe then DELETE, successful iff 200 or 404 |
| SearchSync.HealthyPath | elasticsearch-vm/lambdas/actualizar_productos_elasticsearch.py:163-229 | past the gate, a record's outcome is its kind's write: its success, the probe followed by the write's requests, and the index stored only on success |
| SearchSync.RemoveRedeliveryIsHarmless | elasticsearch-vm/lambdas/actualizar_productos_elasticsearch.py:204-225 | a REMOVE delivered twice succeeds both times, leaves the document absent, and the second delivery changes nothing |
| SearchSync.DeletedTwice | elasticsearch-vm/lambdas/actualizar_productos_elasticsearch.py:146-161 | the same, stated for the dispatch of one decoded row |
| SearchSync.ModifyCreatesMissing | elasticsearch-vm/lambdas/actualizar_productos_elasticsearch.py:186-202 | a MODIFY of a product the index does not hold succeeds and creates its document |
| SearchSync.UpsertRedeliveryConverges | elasticsearch-vm/lambdas/actualizar_productos_elasticsearch.py:168-202 | an INSERT or MODIFY processed twice leaves the indices as one processing at the later time does |
| SearchSync.NoWriteKeepsIndices | elasticsearch-vm/lambdas/actualizar_productos_elasticsearch.py:163-233 | a record that sends no write (an unknown event, no endpoint, an unhealthy probe, no identifier, no buildable document) changes no index |
| SearchSync.OnlyTheSentWriteChangesIndices | elasticsearch-vm/lambdas/actualizar_productos_elasticsearch.py:163-233 | a record changes at most the index it wrote to, and only by the effect of the one write it sent; a write it counted as successful has taken effect |
| SearchSync.DispatchedOnce | elasticsearch-vm/lambdas/actualizar_productos_elasticsearch.py:168-202 | against a well-behaved cluster an INSERT or MODIFY stores its document under its identifier at its endpoint |
| SearchSync.BatchCountsEveryRecord | elasticsearch-vm/lambdas/actualizar_productos_elasticsearch.py:271-283 | successes plus failures equal the number of records |
| SearchSync.UnknownEventsNeverFail | elasticsearch-vm/lambdas/actualizar_productos_elasticsearch.py:274-283 | a batch of unrecognised events counts every record as a success, sends nothing and changes no index |
| SearchSync.ProcessBatch | elasticsearch-vm/lambdas/actualizar_productos_elasticsearch.py:271-283 | the in-order fold over the batch sends at most two requests per record; its counters are stated by BatchCountsEveryRecord |
| SearchSync.Handler | elasticsearch-vm/lambdas/actualizar_productos_elasticsearch.py:256-296 | always 200; the total is the number of records; successes plus failures equal it; the counters and the final indices are those of the in-order fold over the records |
| DynamoAttr.Field | lambdas-streams/lambdas/actualizar_compras_stream.py:69-74 | a nested key is found iff some entry carries it, and the value found is that of its last entry |
| DynamoAttr.StringOr | lambdas-streams/lambdas/actualizar_compras_stream.py:50-53 | the string under the key, or '' when it is missing or not a string |
| DynamoAttr.NumberOr | lambdas-streams/lambdas/actualizar_compras_stream.py:73-74 | the number literal under the key, or the given default when it is missing or not a number |
| PurchaseArchive.ChosenImage | lambdas-streams/lambdas/actualizar_compras_stream.py:40-46 | the new image when present, else the old one, else none |
| PurchaseArchive.LineOf | lambdas-streams/lambdas/actualizar_compras_stream.py:70-75 | a product entry converts iff its `precio_unitario` is a float literal and its `cantidad` an int literal (missing reads "0"); code and name default to '' |
| PurchaseArchive.ConvertProducts | lambdas-streams/lambdas/actualizar_compras_stream.py:66-76 | the loop over the product list yields the lines `DecodeProducts` specifies, or fails as it does |
| PurchaseArchive.DecodeFailurePersists | lambdas-streams/lambdas/actualizar_compras_stream.py:67-76 | once a prefix of the list fails to convert, the whole list fails |
| PurchaseArchive.DecodeSucceedsIff | lambdas-streams/lambdas/actualizar_compras_stream.py:66-76 | about `DecodeProducts`: the list converts exactly when every `M` element converts |
| PurchaseArchive.LinesAreMEntriesInOrder | lambdas-streams/lambdas/actualizar_compras_stream.py:66-76 | about `DecodeProducts`: only `M` elements become lines, one each, in list order |
| PurchaseArchive.Summarize | lambdas-streams/lambdas/actualizar_compras_stream.py:79-87 | `total_productos` is the number of lines, `total_cantidad` the sum of their quantities, `total_precio` the sum of price times quantity (TotalsAreAdditive gives the line-by-line sums), and the currency is USD |
| PurchaseArchive.TotalsAreAdditive | lambdas-streams/lambdas/actualizar_compras_stream.py:79-80 | total quantity and total price add up over any split of the lines |
| PurchaseArchive.TotalCantidadNonNegative | lambdas-streams/lambdas/actualizar_compras_stream.py:79 | lines with non-negative quantities total a non-negative quantity |
| PurchaseArchive.Format | lambdas-streams/lambdas/actualizar_compras_stream.py:28-94 | a formatted document comes from the chosen image, with '' defaults, its decoded lines, their summary, and the record's metadata with the processing time and stage |
| PurchaseArchive.FormatCompraData | lambdas-streams/lambdas/actualizar_compras_stream.py:28-94 | the step-by-step construction yields exactly the `Format` document, or none when `Format` gives none |
| PurchaseArchive.FormatSucceedsIff | lambdas-streams/lambdas/actualizar_compras_stream.py:38-94 | formatting succeeds exactly when there is an image, the three metadata keys, and a convertible product list |
| PurchaseArchive.DatePart | lambdas-streams/lambdas/actualizar_compras_stream.py:112-115 | the date part is a prefix of the text and holds no space: the whole text, or the part before its first space |
| PurchaseArchive.ParseDate | lambdas-streams/lambdas/actualizar_compras_stream.py:117 | every accepted `%Y-%m-%d` text denotes a date that exists |
| PurchaseArchive.ParseDateIff | lambdas-streams/lambdas/actualizar_compras_stream.py:117 | `strptime(s, '%Y-%m-%d')` gives `d` exactly when `d` is a valid date and `s` is four digits of its year, a dash, one or two digits of its month, a dash, and one or two digits of its day; every other text raises |
| PurchaseArchive.AcceptedDateIsSpelled | lambdas-streams/lambdas/actualizar_compras_stream.py:117 | an accepted text spells the date it gives |
| PurchaseArchive.SpelledDateIsAccepted | lambdas-streams/lambdas/actualizar_compras_stream.py:117 | every such spelling of a valid date is accepted and gives that date |
| PurchaseArchive.UnpaddedDateIsAccepted | lambdas-streams/lambdas/actualizar_compras_stream.py:117-129 | a month and a day without their leading zero are read too: "2024-1-5" is 5 January 2024 |
| PurchaseArchive.ParseFormattedDate | lambdas-streams/lambdas/actualizar_compras_stream.py:117-120 | every valid date is read back from its YYYY-MM-DD form |
| PurchaseArchive.DateBeforeSpace | lambdas-streams/lambdas/actualizar_compras_stream.py:112-120 | a date followed by a space and a time is read by its date part |
| PurchaseArchive.EmptyDateDoesNotParse | lambdas-streams/lambdas/actualizar_compras_stream.py:112-117 | an empty `fecha` does not parse |
| PurchaseArchive.Lower | lambdas-streams/lambdas/actualizar_compras_stream.py:129 | lower-casing keeps the length and lowers each ASCII letter |
| PurchaseArchive.S3Key | lambdas-streams/lambdas/actualizar_compras_stream.py:96-137 | the tenant/year/month/day key when the date part parses, otherwise the error-prefix key |
| PurchaseArchive.KeyOfDatedPurchase | lambdas-streams/lambdas/actualizar_compras_stream.py:128-129 | a purchase dated `YYYY-MM-DD time` is filed under `compras/{tenant}/{Y}/{MM}/{DD}/{event}_{id}_{stamp}.json`, with month and day zero-padded |
| PurchaseArchive.UndatedPurchaseUsesFallback | lambdas-streams/lambdas/actualizar_compras_stream.py:133-137 | a purchase without a date is filed under `compras/error/{event}_{stamp}.json` |
| PurchaseArchive.RecordResult.Error | lambdas-streams/lambdas/actualizar_compras_stream.py:200-235 | a result carries an error message exactly when it is not a success |
| PurchaseArchive.ProcessStreamRecord | lambdas-streams/lambdas/actualizar_compras_stream.py:182-235 | a failed record leaves the archive as it was; a saved one is archived under its key, and no other key changes |
| PurchaseArchive.UnformattedWritesNothing | lambdas-streams/lambdas/actualizar_compras_stream.py:198-205 | a record that does not format fails, writes nothing, and does not consult the store |
| PurchaseArchive.SavedIffStored | lambdas-streams/lambdas/actualizar_compras_stream.py:207-227 | a formatted record succeeds exactly when the store accepts it, and only then is it archived under its key |
| PurchaseArchive.ResultIgnoresArchive | lambdas-streams/lambdas/actualizar_compras_stream.py:182-235 | a record's result does not depend on what was archived before it |
| PurchaseArchive.BatchAccountsForEveryRecord | lambdas-streams/lambdas/actualizar_compras_stream.py:260-273 | about the batch fold `ArchiveBatch`: processed equals successes plus failures equals the number of records, with one result per record in input order |
| PurchaseArchive.LambdaHandler | lambdas-streams/lambdas/actualizar_compras_stream.py:237-290 | 200, with the counters, details and archive of the in-order fold; processed equals successes plus failures equals the number of records |
| Storefront.BumpAll | front/src/App.tsx:2640-2644 | the same length, with each item of the code having its quantity raised and every other item kept |
| Storefront.AddToCart | front/src/App.tsx:2634-2648 | a code already in the cart: same length, only that code's items raised by the quantity; a new code: the product appended once with the quantity |
| Storefront.AddToCartTotal | front/src/App.tsx:2634-2648 | in a cart of unique codes, adding raises the total quantity by exactly the quantity added |
| Storefront.AddToCartKeepsCodesUnique | front/src/App.tsx:2646-2648 | unique codes stay unique, and the code is in the cart afterwards |
| Storefront.RemoveFromCart | front/src/App.tsx:2694-2696 | exactly the items of other codes remain |
| Storefront.RemoveDistributes | front/src/App.tsx:2694-2696 | removal commutes with concatenation, so the kept items keep their relative order |
| Storefront.RemoveFromCartQuantities | front/src/App.tsx:2694-2696 | no item of the code remains, and every other code keeps its quantity |
| Storefront.RemoveIsIdempotent | front/src/App.tsx:2694-2696 | removing twice is removing once |
| Storefront.SetAll | front/src/App.tsx:2702-2706 | the same length, with each item of the code set to the quantity and every other item kept |
| Storefront.UpdateCartQuantity | front/src/App.tsx:2698-2708 | a quantity of 0 or less is exactly `RemoveFromCart`; otherwise same length and codes, the code's items set and the others unchanged |
| Storefront.UpdateSetsQuantity | front/src/App.tsx:2702-2706 | in a cart of unique codes a positive update leaves exactly that quantity of the code, and the codes stay unique |
| Storefront.UpdateIsIdempotent | front/src/App.tsx:2698-2708 | updating twice to the same quantity is updating once |
| Storefront.FindIndex | front/src/App.tsx:563 | the first position holding the code, or -1 when none does |
| Storefront.KeptUpToPositions | front/src/App.tsx:559-564 | the filter over a prefix keeps exactly the low-stock first listings, in increasing position |
| Storefront.LastChanceSelection | front/src/App.tsx:559-564 | about `LastChance`: the shelf holds only products with `0 < cantidad < 15`, with unique codes, in list order; a code is shown iff its first listing is low on stock |
| AccountForms.ValidateUserData | front/src/App.tsx:1754-1785 | no error iff the trimmed user id has 3 or more characters, the password 6 or more, and a given name and organisation trim to 2 or more; each failure appears iff its condition fails, in checking order; the messages shown are those of the failures, in the same order |
| AccountForms.PushIf | front/src/App.tsx:1762-1782 | a failed check appends its error after all lower-ranked ones and changes nothing else |
| AccountForms.Messages | front/src/App.tsx:1763-1781 | one message per error, in the same order |
| AccountForms.ErrorMessage | front/src/App.tsx:1787-1817 | fixed messages for 401/403/404/409/422/500/503; for 400 a non-empty `mensaje` or the default; for any other code `mensaje`, then `error`, then the default; never empty |
| AccountForms.FixedCodesIgnoreBody | front/src/App.tsx:1796-1809 | for the listed codes the reply body does not matter |
| AccountForms.ServerMessagePreferred | front/src/App.tsx:1791-1815 | for 400 and every unlisted code a non-empty server `mensaje` is shown |
| AccountForms.BadRequestIgnoresError | front/src/App.tsx:1792-1815 | a 400 never shows the body's `error` field, while an unlisted code does |
| JsText.Trim | front/src/App.tsx:1762 | the result is no longer than the input, and neither starts nor ends with white space |
| JsText.TrimEnd | front/src/App.tsx:1762 | the input without its trailing white space: a prefix of it, followed only by white space, and not ending in white space |
| JsText.TrimIsBothEnds | front/src/App.tsx:1762 | `trim` is the removal of the leading white space followed by the removal of the trailing white space |
| JsText.BothEndsIsInfix | front/src/App.tsx:1762 | so what `trim` keeps is the stretch of the input that starts where its leading white space ends, with only white space after it |
| JsText.TrimEmptyIffAllSpace | front/src/App.tsx:1762 | `trim` gives the empty string exactly when the input is all white space |
| FuzzySearch.Min3 | front/src/App.tsx:2394-2398 | the minimum: at most each argument and equal to one of them |
| FuzzySearch.LevenshteinDistance | front/src/App.tsx:2383-2403 | the matrix fill returns the edit-distance recurrence of the two whole strings |
| FuzzySearch.FillRow | front/src/App.tsx:2391-2400 | from a filled row `j-1`, the inner loop fills row `j` with the recurrence and leaves the first cells of later rows alone |
| FuzzySearch.PrefixDistanceSymmetric | front/src/App.tsx:2391-2400 | about the recurrence `PrefixDistance`: the recurrence is symmetric in its two strings for every pair of prefixes |
| FuzzySearch.DistanceSymmetric | front/src/App.tsx:2383-2403 | the distance from `s` to `t` equals the distance from `t` to `s` |
| FuzzySearch.PrefixDistanceToSelf | front/src/App.tsx:2391-2400 | every prefix is at distance 0 from itself |
| FuzzySearch.DistanceToSelf | front/src/App.tsx:2383-2403 | a string is at distance 0 from itself |
| FuzzySearch.DistanceToEmpty | front/src/App.tsx:2388-2389 | the distance between a string and the empty string is the string's length, in either order |
| FuzzySearch.PrefixDistanceAtMostLonger | front/src/App.tsx:2391-2400 | never more edits than the longer prefix has characters |
| FuzzySearch.PrefixDistanceAtLeastGap | front/src/App.tsx:2391-2400 | never fewer edits than the difference in length |
| FuzzySearch.DistanceBounds | front/src/App.tsx:2383-2403 | the distance lies between the length difference and the longer length |
| JsText.TrimStart | PROYECTO_FINAL/MS2-api-productos/lambdas/listarProductos.js:39-40 | the leading white space, and only that, is dropped |
| JsText.DigitRun | PROYECTO_FINAL/MS2-api-productos/lambdas/listarProductos.js:39-40 | the length of the maximal run of digits at the start |
| JsText.ParseInt | PROYECTO_FINAL/MS2-api-productos/lambdas/listarProductos.js:39-40 | `parseInt` is NaN exactly when no digit follows the white space, the sign and any hex prefix |
| JsText.ParseIntOfDecimal | PROYECTO_FINAL/MS2-api-productos/lambdas/listarProductos.js:39-40 | the decimal text of a natural number parses to that number |
| JsText.ParseIntOfNegative | PROYECTO_FINAL/MS2-api-productos/lambdas/listarProductos.js:39-40 | a minus sign before the digits negates the value |
| JsText.ParseIntRejectsNonNumeric | PROYECTO_FINAL/MS2-api-productos/lambdas/listarProductos.js:39-40 | a text that starts with neither white space, sign nor digit is NaN |
| ProductListing.Relative | PROYECTO_FINAL/MS2-api-productos/lambdas/listarProductos.js:72-77 | the index `slice` makes of a position lies within the array |
| ProductListing.ListProducts | PROYECTO_FINAL/MS2-api-productos/lambdas/listarProductos.js:18-117 | a page is produced only for a non-OPTIONS request with a table name and a successful scan |
| ProductListing.Respond | PROYECTO_FINAL/MS2-api-productos/lambdas/listarProductos.js:43-117 | a page exactly when the limit is accepted and the scan succeeded; a scan failure exactly when the limit is accepted and the scan failed |
| ProductListing.Paginate | PROYECTO_FINAL/MS2-api-productos/lambdas/listarProductos.js:64-100 | always a page: `count` is the page's length, at most the item count, and `totalCount` is the item count |
| ProductListing.PreflightIgnoresEverything | PROYECTO_FINAL/MS2-api-productos/lambdas/listarProductos.js:22-28 | an OPTIONS request is answered by the preflight, whatever the table and the scan |
| ProductListing.MissingTableFailsFirst | PROYECTO_FINAL/MS2-api-productos/lambdas/listarProductos.js:32-35 | a missing table name is a 500, before the limit is checked |
| ProductListing.BadLimitIff | PROYECTO_FINAL/MS2-api-productos/lambdas/listarProductos.js:43-51 | the reply is 400 exactly when the limit parses to an integer below 0 or above 100; 0 and NaN pass |
| ProductListing.BadLimitSkipsScan | PROYECTO_FINAL/MS2-api-productos/lambdas/listarProductos.js:43-61 | a rejected limit is answered without the scan |
| ProductListing.ScanErrorIsReported | PROYECTO_FINAL/MS2-api-productos/lambdas/listarProductos.js:107-117 | a failing scan is a 500 carrying the scan's message |
| ProductListing.ZeroLimitMeansNoLimit | PROYECTO_FINAL/MS2-api-productos/lambdas/listarProductos.js:39-82 | a limit that parses to 0 or NaN gives the same reply as no limit at all |
| ProductListing.FalsyLimitsAgree | PROYECTO_FINAL/MS2-api-productos/lambdas/listarProductos.js:43-99 | the reply does not depend on which falsy limit was given |
| ProductListing.ScannedItemsArePaginated | PROYECTO_FINAL/MS2-api-productos/lambdas/listarProductos.js:60-100 | past the checks, the reply is the page of the scanned items (none when `Items` is absent) |
| ProductListing.Start | PROYECTO_FINAL/MS2-api-productos/lambdas/listarProductos.js:71-73 | a positive offset, clipped to the item count, is the page start; any other offset skips nothing |
| ProductListing.PageIsWindow | PROYECTO_FINAL/MS2-api-productos/lambdas/listarProductos.js:64-90 | the page is the window `all[start..end]`, with `end` the start plus the limit clipped to the count (or the count without a limit); `count` is its length, `totalCount` the item count, and count ≤ limit |
| ProductListing.PaginationPresentIff | PROYECTO_FINAL/MS2-api-productos/lambdas/listarProductos.js:81-100 | `pagination` is present iff a limit applies or the offset is positive; its limit is the limit or the item count; `nextOffset` is offset + (limit or 0); no limit means no `hasMore` |
| ProductListing.HasMoreIffItemsRemain | PROYECTO_FINAL/MS2-api-productos/lambdas/listarProductos.js:81 | for a non-negative integer offset, `hasMore` holds iff items remain after the page |
| ProductListing.NegativeOffsetAnnouncesMore | PROYECTO_FINAL/MS2-api-productos/lambdas/listarProductos.js:71-81 | a negative offset skips nothing, yet can announce more after returning every item |
| ProductListing.NaNOffsetHidesMore | PROYECTO_FINAL/MS2-api-productos/lambdas/listarProductos.js:40-82 | an offset that is not a number skips nothing, never announces more even when the limit cuts the page short, and gives a NaN `nextOffset` |
| ProductListing.PageRequestIsPaginated | PROYECTO_FINAL/MS2-api-productos/lambdas/listarProductos.js:38-100 | the reply to a request at decimal offset `o` under an accepted limit is the page at `o` |
| ProductListing.PageRequestParses | PROYECTO_FINAL/MS2-api-productos/lambdas/listarProductos.js:38-40 | such a request keeps the query's limit and reads the offset `o` |
| ProductListing.DecimalParamParses | PROYECTO_FINAL/MS2-api-productos/lambdas/listarProductos.js:40 | a decimal offset parameter reads as its value |
| ProductListing.WindowAt | PROYECTO_FINAL/MS2-api-productos/lambdas/listarProductos.js:68-99 | at offset `o` with limit `l`, the page is `all[o..min(o+l, n)]`, `hasMore` is `o + l < n` and `nextOffset` is `o + l` |
| ProductListing.CollectFollowsPages | PROYECTO_FINAL/MS2-api-productos/lambdas/listarProductos.js:81-82 | following the pages is the page at `o`, then the pages from `nextOffset` while `hasMore` is announced |
| ProductListing.CollectCoversRest | PROYECTO_FINAL/MS2-api-productos/lambdas/listarProductos.js:68-82 | following the pages from offset `o` yields every item from `o` on, once each and in scan order |
| ProductListing.CollectFromZeroIsEverything | PROYECTO_FINAL/MS2-api-productos/lambdas/listarProductos.js:68-82 | from offset 0 a client receives the whole table |
| PurchaseRegistration.LineStepEffect | PROYECTO_FINAL/MS3-api-compras/lambdas/registrar_compra.py:53-94 | a line is refused, in this order, as invalid (400), unknown (404) or short of stock (400), leaving the table unchanged; otherwise its stock drops by the quantity, nothing else changes, and it is confirmed iff the product has `nombre` and `precio`, which the confirmed line copies |
| PurchaseRegistration.LineStep | PROYECTO_FINAL/MS3-api-compras/lambdas/registrar_compra.py:53-94 | one line keeps the product table's keys and changes at most the product the line names, and only when the line is valid |
| PurchaseRegistration.FailurePersists | PROYECTO_FINAL/MS3-api-compras/lambdas/registrar_compra.py:53-79 | once a prefix has failed, the lines after it are not processed |
| PurchaseRegistration.PassedLinesAreDecremented | PROYECTO_FINAL/MS3-api-compras/lambdas/registrar_compra.py:81-87 | when every line passes, each product's stock is lowered by exactly the total asked of it, names and prices are kept, and no requested stock is negative |
| PurchaseRegistration.CheckoutSucceedsIff | PROYECTO_FINAL/MS3-api-compras/lambdas/registrar_compra.py:53-94 | about the loop `RunCheckout`: the lines all pass exactly when each is valid, names a product with a name and a price, and no product is asked for more in total than its stock |
| PurchaseRegistration.FirstFailureEndsRequest | PROYECTO_FINAL/MS3-api-compras/lambdas/registrar_compra.py:53-79 | the first refused line ends the loop with its failure and its table |
| PurchaseRegistration.FailureKeepsEarlierDecrements | PROYECTO_FINAL/MS3-api-compras/lambdas/registrar_compra.py:81-94 | no rollback: when line k is the first to fail, the decrements of lines 0..k-1 stay applied, and line k's own too when its product lacks a name or a price |
| PurchaseRegistration.DecrementExtends | PROYECTO_FINAL/MS3-api-compras/lambdas/registrar_compra.py:81-87 | one more passed stock check extends the applied decrements by that line's quantity |
| PurchaseRegistration.ConfirmedLinesFollowRequest | PROYECTO_FINAL/MS3-api-compras/lambdas/registrar_compra.py:89-94 | when all lines pass, there is one confirmed line per requested line, in order, with the stored `nombre` and `precio` |
| PurchaseRegistration.StockStaysNonNegative | PROYECTO_FINAL/MS3-api-compras/lambdas/registrar_compra.py:74-87 | a table without negative stock keeps its products and never gets a negative stock, whatever the request |
| PurchaseRegistration.Handle | PROYECTO_FINAL/MS3-api-compras/lambdas/registrar_compra.py:20-118 | the purchase table is unchanged, or grows by exactly one record with a 200 registration |
| PurchaseRegistration.EmptyRequestIsRejected | PROYECTO_FINAL/MS3-api-compras/lambdas/registrar_compra.py:42-49 | an empty product list is a 400 that leaves both tables unchanged |
| PurchaseRegistration.RegisteredPurchase | PROYECTO_FINAL/MS3-api-compras/lambdas/registrar_compra.py:96-110 | a registration means the request was satisfiable; exactly one record is appended, with the token's user and tenant and one confirmed line per requested line; every stock is lowered by what was bought |
| PurchaseRegistration.FailedLinesWriteNoPurchase | PROYECTO_FINAL/MS3-api-compras/lambdas/registrar_compra.py:53-104 | an unsatisfiable request fails with 400, 404 or 500, writes no purchase, and keeps the decrements made before the failure |
| PurchaseRegistration.PurchaseApi.constructor | PROYECTO_FINAL/MS3-api-compras/lambdas/registrar_compra.py:16-18 | the two tables the handler works on |
| PurchaseRegistration.PurchaseApi.ConfirmLines | PROYECTO_FINAL/MS3-api-compras/lambdas/registrar_compra.py:51-94 | the in-place loop leaves the confirmed lines, the failure and the product table of `RunCheckout`, and does not touch the purchase table |
| PurchaseRegistration.PurchaseApi.LambdaHandler | PROYECTO_FINAL/MS3-api-compras/lambdas/registrar_compra.py:20-118 | the reply and both tables after the call are those `Handle` gives for the tables before it |
| Numerals.SignedDigits | lambdas-streams/lambdas/actualizar_compras_stream.py:74 | behind `ParseInteger`: an integer literal is read iff it is an optional sign followed by at least one digit and nothing else |
| Numerals.IntegerRoundTrip | lambdas-streams/lambdas/actualizar_compras_stream.py:74 | about `ParseInteger`: `int(str(i)) == i` for every integer |
| Numerals.DecimalOfNatLiteral | elasticsearch-vm/lambdas/actualizar_productos_elasticsearch.py:244 | about `ParseDecimal`: `float()` of a natural-number literal is that number |

## Left out

- HTTP transport: the retry policy (3 retries with backoff on 429 and 5xx),
  timeouts and sessions are library behaviour. The `Server` oracle gives the
  final reply of each request.
- Logging throughout; the bucket name, stage, processing time and request id
  in the archiver's response body; the CORS headers of every reply.
- AWS calls: DynamoDB `get_item`, `update_item`, `put_item` and `scan`, S3
  `put_object`. They are replaced by maps, the `Store` oracle, the `putOk`
  flag and the `Scan` parameter.
- `update_item`'s `ConditionExpression` in the registration handler: requests
  are processed one at a time, so the stock check just made always meets it.
  Concurrent requests are not modelled.
- Clocks (`datetime.now`, `utcnow`) and `uuid4` are parameters. The archiver's
  clock is a function of the record's position in the batch.
- The token middleware is not part of this model. Its verdict is the
  `TokenCheck` parameter: rejected with its status and message, or accepted
  with the token's stored data.
- Floating point: prices are exact reals. The archiver's
  `round(total_precio, 2)` is not applied. Python's `float()` accepts no
  `inf`, `nan` or underscores here, and `int()` accepts no underscores.
- PurchaseArchive.Summarize: `total_precio` is the exact sum, not
  `round(..., 2)`, because floats are not modelled.
- Python `repr` escaping in `str()` of an attribute value (`DynamoAttr.Render`).
- An attribute value dictionary with several type tags, or a value that is not
  a dictionary, is not representable. The decoder's tag-check order matters
  only for those.
- ES_ENDPOINTS entries whose values are not strings.
- Exceptions that no modelled input can raise: for example, an `eventName`
  check against a non-dict record, or a body that parses as JSON but is not an
  object. A non-numeric `cantidad` in a registration request, which raises a
  `TypeError` (500), is also not modelled: request quantities are integers.
- `datetime.strptime` is modelled on ASCII digits only. Its `%d` alternative
  with a leading space cannot occur, because the date part has no spaces.
- Storefront.AddToCart: the default `quantity = 1` is the caller's to supply.
  The notification and the React state update are not modelled.
- The React client beyond these helpers: rendering, effects, timers, `fetch`
  calls, price filters and the fuzzy-match thresholds built on the distance.
- Negative zero from `parseInt("-0")` behaves as zero here, as it does in every
  comparison and in the one addition ProductListing makes.
- The search manager is an immutable value built once per batch, not an
  object with a session.
- SearchIndex.Send: a write the client counted as successful (200/201, or
  200/404 for a delete) is taken to have been carried out by the cluster. A
  write it counted as failed may or may not have landed; the `applies` part of
  the server oracle decides, and the model promises nothing about which.
- AccountForms.ValidateUserData: JavaScript `.length` counts UTF-16 code units,
  while the model counts characters. A user id of two characters outside the
  Basic Multilingual Plane (two emoji, say) has length 4 in the browser and
  passes the 3-character check, but the model reports it as too short.
- FuzzySearch.LevenshteinDistance: the browser compares UTF-16 code units, the
  model characters. Strings outside the Basic Multilingual Plane get a
  different distance.
- Numerals.ParseDecimal and Numerals.ParseInteger: only ASCII white space is
  stripped (space, tab, line feed, vertical tab, form feed, carriage return and
  0x1C to 0x1F) and only ASCII digits are read. Python's `float()`/`int()` also
  strip non-ASCII white space such as U+0085 and U+00A0 and accept other Unicode decimal digits, so
  `float("5\u00a0")` is 5.0 there but fails here. This matters for a `precio`
  or `cantidad` stored as a string (SearchIndex.BuildDoc).
- JsText.ParseInt: the result is an exact integer. JavaScript rounds a digit
  run above 2^53 to a double and yields Infinity past about 1.8e308, so the
  `offset`, `nextOffset` and `hasMore` of ProductListing differ for such
  values.
