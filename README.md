# Order API: a verified model of its core

The order API is a NestJS service that keeps customer orders in a DynamoDB
table, guards its routes with API keys, and has an experimental endpoint that
reads a PDF (text layer first, OCR as fallback) and asks a language model to
pull fields out of it. This project models four pieces of that service in
Dafny and proves what they promise:

- **The order table** (`DynamoDB.dfy`). The table is a map from the composite
  key `(pk, sk) = ("ORDER#" + id, "ORDER#" + id)` to an item. An item is a map
  from attribute name to value. `DynamoDBService` is a class whose `items`
  field the methods update in place: an unconditional put, a get that strips
  `pk`/`sk`, a scan filtered on the `ORDER#` prefix, a sparse `SET` update that
  always stamps `updatedAt`, and an unconditional delete. Each method is proved
  against the pure function that says what it does to the table (`Lookup`,
  `OrderKeys`, `Updated`, `WithKeys`, `Strip`).
- **The order rules** (`Orders.dfy`). `OrderService` calls the table:
  - `create` derives the keys, `totalPrice = quantity * unitPrice`, the
    `pending` status default and equal timestamps;
  - `findOne`, `update` and `remove` turn a missing id into NotFound before
    any write;
  - `update` recomputes the total.

  The service's invariant (`OrderService.Valid`) is that every item under an
  order key is a well-typed `Order`, stored under the key of its own id, whose
  total equals quantity times unit price. It is an invariant of the corrected
  program: the constructor establishes it, and `Create`, `Update` (with the
  corrected update data) and `Remove` keep it. The consistent totals that
  `FindAll` and `FindOne` promise rest on it. `update` as written
  (`UpdateAsWritten`) keeps only the weaker `OrderShapes`, well-typed orders
  under their own keys; it can leave a total inconsistent (see Findings).
- **PDF intake** (`PdfIntake.dfy`, with `OrderService.UploadPdf`). The pipeline
  is a state machine: type check, then digital extraction (failure swallowed),
  then OCR only when the trimmed text is empty (failure fatal), then the
  completion call (failure fatal). pdf-parse, Tesseract and the completion
  service are oracle parameters. `Intake` returns the result and the trace of
  stages run. `UploadPdf` does the same work step by step on a mutable `text`
  and is proved to give the same answer and trace.
- **API-key authentication** (`ApiKeys.dfy`).
  - The allow-list is `ALLOWED_API_KEYS` split on commas, each part trimmed,
    kept as a set: each key once.
  - The guard takes the key from `Authorization` with `/^Bearer\s+(.+)$/i`,
    then `/^ApiKey\s+(.+)$/i`. Both are modelled with the backtracking a
    regular-expression engine performs.
  - `canActivate` either returns `true` or throws Unauthorized with one of two
    messages.

`JsText.dfy` models the ECMAScript string operations these rely on:
- the `\s` / `trim` whitespace class;
- `trim`;
- `split` on one character, with `join` as its inverse;
- `Array.from(new Set(xs))`.

`OrderRecord.dfy` holds the attribute names of the `Order` entity and what a
well-formed order is. `Outcomes.dfy` holds `Option`, `Result` and the
exceptions. A thrown exception is an `Err` result.

Inputs the service reads from its environment are parameters:
- the fresh order id (`uuidv4()`) and the clock (`new Date().toISOString()`);
- the `ALLOWED_API_KEYS` setting;
- the `Authorization` header;
- the uploaded file's mimetype;
- the results of the three external engines.

## Model

| member | source | states |
|---|---|---|
| JsText.Trim | api/src/module/order/services/api-key.service.ts:12 | `trim` leaves no whitespace at either end and never lengthens its input |
| JsText.TrimPadded | api/src/module/order/services/api-key.service.ts:12 | a trimmed text padded with whitespace on both sides trims back to exactly that text |
| JsText.TrimSplits | api/src/module/order/services/api-key.service.ts:12 | every text is its trimmed form with whitespace added on both sides, so trimming removes only surrounding whitespace |
| JsText.TrimCharsFromInput | api/src/module/order/services/api-key.service.ts:12 | trimming introduces no character that was not in the input |
| JsText.TrimIdempotent | api/src/module/order/order.service.ts:94 | trimming twice is trimming once |
| JsText.TrimEmptyIff | api/src/module/order/order.service.ts:94-100 | the trimmed text is empty exactly when the input is whitespace only |
| JsText.Split | api/src/module/order/services/api-key.service.ts:12 | `split(",")` yields at least one part and no part contains the separator |
| JsText.JoinSplit | api/src/module/order/services/api-key.service.ts:12 | joining the parts of a split with the separator gives the input back (split loses nothing) |
| JsText.SplitJoin | api/src/module/order/services/api-key.service.ts:12 | separator-free parts joined and split again come back unchanged (split is the unique such cut) |
| JsText.Distinct | api/src/module/order/services/api-key.service.ts:11-13 | the set holds each value once, and exactly the values of the list it was built from |
| DynamoDB.WithKeys | api/src/module/order/services/dynamodb.service.ts:57-61 | the record with `pk`/`sk` of its own id attached, every other attribute as given |
| DynamoDB.Strip | api/src/module/order/services/dynamodb.service.ts:100 | `{ pk, sk, ...order }`: no key attributes, every other attribute as stored |
| DynamoDB.Lookup | api/src/module/order/services/dynamodb.service.ts:83-101 | a get answers null exactly when no item is at the id's key; otherwise the stored item without `pk`/`sk`, every other attribute as stored |
| DynamoDB.OrderKeys | api/src/module/order/services/dynamodb.service.ts:117-124 | the scan filter keeps only keys of the table, and keeps the key of every order id |
| DynamoDB.StoredOrNew | api/src/module/order/services/dynamodb.service.ts:166-178 | `UpdateItem` starts from the stored item when the key is present, and otherwise from a new item holding only the key attributes; either carries the key |
| DynamoDB.Updated | api/src/module/order/services/dynamodb.service.ts:146-182 | the `SET` update's result: every supplied attribute other than `id`/`pk`/`sk` takes the supplied value; `updatedAt` becomes now; every other stored attribute is unchanged; no other attribute appears; a supplied `updatedAt` makes the request fail |
| DynamoDB.KeyOfInjective | api/src/module/order/services/dynamodb.service.ts:59-60 | both key parts are `ORDER#` + id, so pk equals sk, and two ids share a key only when they are equal |
| DynamoDB.KeyOfHasOrderPrefix | api/src/module/order/services/dynamodb.service.ts:117-124 | every order key passes the scan's `begins_with(pk, "ORDER#")` filter |
| DynamoDB.LookupAfterPut | api/src/module/order/services/dynamodb.service.ts:57-71 | after a put, getting the order's id gives the order without `pk`/`sk`, whatever was there before, and every other id reads as before |
| DynamoDB.LookupAfterDelete | api/src/module/order/services/dynamodb.service.ts:197-207 | after a delete the id reads as missing, and every other id reads as before |
| DynamoDB.OrderKeysAfterPut | api/src/module/order/services/dynamodb.service.ts:117-130 | a put adds exactly its own key to what the scan returns |
| DynamoDB.OrderKeysAfterDelete | api/src/module/order/services/dynamodb.service.ts:117-130 | a delete removes exactly its own key from what the scan returns |
| DynamoDB.UpdatedKeepsKeys | api/src/module/order/services/dynamodb.service.ts:153-178 | an update never rewrites the key attributes of the item it writes |
| DynamoDB.DynamoDBService.constructor | api/src/module/order/services/dynamodb.service.ts:20-48 | the service starts over the table as it stands, a table whose items carry their own keys, and holds its invariant |
| DynamoDB.DynamoDBService.CreateOrder | api/src/module/order/services/dynamodb.service.ts:55-76 | puts the record with `pk`/`sk` attached under its key, overwriting any item there, changes no other key, and returns the record with its keys |
| DynamoDB.DynamoDBService.GetOrder | api/src/module/order/services/dynamodb.service.ts:83-109 | answers as `Lookup`: null exactly when no item is at the key, and otherwise that item without `pk`/`sk` |
| DynamoDB.DynamoDBService.GetAllOrders | api/src/module/order/services/dynamodb.service.ts:115-138 | returns every item whose `pk` begins with `ORDER#`, stripped of `pk`/`sk`, each once and nothing else: one element per order key (so empty when there are none) |
| DynamoDB.DynamoDBService.UpdateOrder | api/src/module/order/services/dynamodb.service.ts:146-190 | gathers the assignments one attribute at a time, skipping `id`/`pk`/`sk`. It then writes `Updated` of the stored item (or of a new one) under the key and returns the merged item without `pk`/`sk`. A rejected request writes nothing |
| DynamoDB.DynamoDBService.DeleteOrder | api/src/module/order/services/dynamodb.service.ts:197-207 | removes the key, with no existence check, and changes nothing else |
| PdfIntake.Step | api/src/module/order/order.service.ts:84-125 | every transition of the intake moves strictly forward through type check, digital extraction, OCR and completion |
| PdfIntake.Run | api/src/module/order/order.service.ts:84-125 | the intake ends, answered or failed, whenever each engine call returns or throws; it records at most one stage per remaining phase, and a stage that is not final is recorded first |
| PdfIntake.Intake | api/src/module/order/order.service.ts:84-125 | every upload runs between one and four stages, the type check first |
| PdfIntake.RunStep | api/src/module/order/order.service.ts:84-125 | running from a stage is taking one transition and running on, with that stage recorded first |
| PdfIntake.RunFromFieldExtraction | api/src/module/order/order.service.ts:120-124 | the completion step sends the text once and answers with its response or its failure |
| PdfIntake.RunFromOpticalFallback | api/src/module/order/order.service.ts:99-105 | an OCR failure ends the intake; otherwise the OCR text goes to the completion as recognised |
| PdfIntake.RunFromDigitalExtract | api/src/module/order/order.service.ts:91-105 | a non-empty trimmed text layer goes straight to the completion; an empty one leads to OCR |
| PdfIntake.IntakeOfPdf | api/src/module/order/order.service.ts:86-97 | a PDF passes the type check and goes on to digital extraction |
| PdfIntake.NonPdfRejected | api/src/module/order/order.service.ts:86-89 | a mimetype other than `application/pdf` fails with BadRequest "Only PDF files are allowed" before any extraction stage |
| PdfIntake.OcrIffDigitalTextBlank | api/src/module/order/order.service.ts:92-105 | OCR runs exactly when pdf-parse threw or gave whitespace-only text |
| PdfIntake.DigitalTextGoesToCompletion | api/src/module/order/order.service.ts:92-97 | with a non-empty trimmed text layer, the completion receives that trimmed text, OCR does not run, and the answer is the completion's response or its failure |
| PdfIntake.OcrTextGoesToCompletion | api/src/module/order/order.service.ts:100-124 | on the OCR path the completion receives the OCR text untrimmed, and the answer is the completion's response or its failure |
| PdfIntake.OcrFailureIsFatal | api/src/module/order/order.service.ts:100-105 | an OCR failure propagates; no completion call and no retry follow |
| PdfIntake.SuccessIsCompletionResponse | api/src/module/order/order.service.ts:122-124 | a successful upload returns exactly the completion's response for the last text sent; every failure is the BadRequest or an engine error |
| ApiKeys.TrimEach | api/src/module/order/services/api-key.service.ts:12 | `map((key) => key.trim())`: one entry per part, in order, each trimmed and made only of characters of its own part |
| ApiKeys.NewApiKeyService | api/src/module/order/services/api-key.service.ts:8-14 | an unset or empty setting gives an empty list; the list never holds a key twice, and every key in it is trimmed and free of commas |
| ApiKeys.ValidateApiKey | api/src/module/order/services/api-key.service.ts:16-18 | a key is valid exactly when it is equal, character for character, to one of the listed keys |
| ApiKeys.GetValidApiKeys | api/src/module/order/services/api-key.service.ts:20-22 | lists as many keys as the set holds, and a key appears exactly when it is valid |
| ApiKeys.UnsetAllowListRejectsAll | api/src/module/order/services/api-key.service.ts:10-17 | an unset or empty `ALLOWED_API_KEYS` gives an empty set, so every key is rejected |
| ApiKeys.AcceptsExactlyTrimmedParts | api/src/module/order/services/api-key.service.ts:11-17 | a key is accepted if and only if it equals some comma-separated part of the setting, trimmed (exact, case-sensitive membership) |
| ApiKeys.PaddedKeyAccepted | api/src/module/order/services/api-key.service.ts:12 | whitespace around a configured key is ignored: a part `" k "` makes `k` valid |
| ApiKeys.AcceptedKeysTrimmedCommaFree | api/src/module/order/services/api-key.service.ts:12 | no accepted key contains a comma or starts or ends with whitespace |
| ApiKeys.ListedKeysAreTheAcceptedOnes | api/src/module/order/services/api-key.service.ts:20-22 | `getValidApiKeys` lists each accepted key exactly once and nothing else |
| ApiKeys.WsRun | api/src/module/order/guards/api-key.guard.ts:36-37 | the longest run of whitespace that `\s+` can take at the start |
| ApiKeys.Backtrack | api/src/module/order/guards/api-key.guard.ts:36-37 | whatever the backtracking over `\s+` captures for `(.+)$` is non-empty and has no line terminator |
| ApiKeys.MatchScheme | api/src/module/order/guards/api-key.guard.ts:36-37 | a capture of `^<scheme>\s+(.+)$` is non-empty and has no line terminator |
| ApiKeys.ExtractApiKeyFromHeader | api/src/module/order/guards/api-key.guard.ts:28-40 | a missing or empty header gives no key; any extracted key is non-empty and has no line terminator |
| ApiKeys.CanActivate | api/src/module/order/guards/api-key.guard.ts:13-26 | never answers false. Unauthorized "API key is required" exactly when no key is extracted; Unauthorized "Invalid API key" exactly when the key is not on the list; true exactly when it is |
| ApiKeys.RegexSplitWithinWsRun | api/src/module/order/guards/api-key.guard.ts:36-37 | `\s+` can never take more than the leading whitespace run |
| ApiKeys.BacktrackFindsGreatest | api/src/module/order/guards/api-key.guard.ts:36-37 | backtracking finds the split with the longest `\s+` that lets `(.+)$` match, and fails only when no split matches |
| ApiKeys.MatchSchemeIsRegex | api/src/module/order/guards/api-key.guard.ts:36-37 | the scheme match fails exactly when the scheme is absent or no split fits `\s+(.+)$`; otherwise it captures the text after the longest fitting whitespace run |
| ApiKeys.WsRunOfPadded | api/src/module/order/guards/api-key.guard.ts:36-37 | whitespace followed by a non-whitespace character is a whitespace run of exactly that length |
| ApiKeys.TokenAfterSchemeIsKey | api/src/module/order/guards/api-key.guard.ts:36-39 | `Bearer` or `ApiKey` in any letter case, whitespace, then a token that starts with a non-whitespace character and has no line terminator: that token is the key |
| ApiKeys.OtherSchemeGivesNoKey | api/src/module/order/guards/api-key.guard.ts:36-39 | a header with any other scheme gives no key |
| ApiKeys.SchemeWithoutTokenGivesNoKey | api/src/module/order/guards/api-key.guard.ts:36-39 | a scheme not followed by whitespace and at least one more character on the line gives no key |
| ApiKeys.BlankKeyIsRefused | api/src/module/order/guards/api-key.guard.ts:17-23 | a whitespace-only key (backtracking can capture one) is refused as invalid under every setting |
| ApiKeys.TwoSpacesCaptureOne | api/src/module/order/guards/api-key.guard.ts:36 | `"Bearer  "` (two spaces) yields the key `" "` |
| Orders.UpdateDtoItem | api/src/module/order/order.service.ts:64 | `{ ...updateOrderDto }` holds each of the seven properties exactly when it was supplied, with the value sent, and nothing else; every value has the entity's type |
| Orders.NewOrder | api/src/module/order/order.service.ts:28-39 | the record `create` builds holds every attribute except the PDF ones, and `shippingAddress` only when sent. It holds the body's fields as sent, `totalPrice = quantity * unitPrice`, status `pending` when missing or empty and otherwise as sent, and `createdAt == updatedAt == now`; it is a well-typed `Order` |
| Orders.NewOrderIsStoredOrder | api/src/module/order/order.service.ts:27-41 | a created order is a well-formed `Order` with a consistent total, carrying the key of its own id, and attaching keys leaves it unchanged |
| Orders.PatchesAgreeUnlessUnitPriceZero | api/src/module/order/order.service.ts:63-69 | on every body validation admits, the update data as written and the corrected one differ only when `unitPrice: 0` is sent |
| Orders.QuantityAloneUsesStoredPrice | api/src/module/order/order.service.ts:65-68 | updating only the quantity sets the total to the new quantity times the stored unit price |
| Orders.NoPriceFieldsNoTotal | api/src/module/order/order.service.ts:63-69 | a body with neither quantity nor unit price is sent as is, without a total |
| Orders.NoPriceFieldsKeepPrices | api/src/module/order/order.service.ts:63-71 | an update with neither quantity nor unit price, as written or corrected, is accepted, keeps the stored quantity, unit price and total, and sets `updatedAt` to now |
| Orders.ValidBodyGivesNonNegativeTotal | api/src/module/order/dto/create-order.dto.ts:31-41 | a body within the `@Min` bounds gives an order with quantity at least 1 and a non-negative unit price and total |
| Orders.UnitPriceZeroBreaksTotal | api/src/module/order/order.service.ts:65-67 | as written, `unitPrice: 0` on an order with a non-zero total stores unit price 0 but keeps the old total, leaving the order inconsistent |
| Orders.ZeroUnitPricePatch | api/src/module/order/order.service.ts:63-69 | for the body `{ unitPrice: 0 }` the code as written sends no total, and the corrected update sends total 0 |
| Orders.TwoAtOneHundred | api/src/module/order/order.service.ts:35-36 | the order for 2 items at 100 is stored with total 200 and status `pending` |
| Orders.PatchAsWritten | api/src/module/order/order.service.ts:63-69 | the update data as written: the supplied fields as sent, and a total exactly when quantity or unit price is supplied and non-zero, computed from each factor or, when it is missing or zero, the stored one; every value has the entity's type |
| Orders.IntendedPatch | api/src/module/order/order.service.ts:63-69 | the corrected update data: the supplied fields as sent, and a total exactly when quantity or unit price is supplied, computed from the values the order holds afterwards; every value has the entity's type |
| Orders.UpdatedKeepsOrderAttributes | api/src/module/order/services/dynamodb.service.ts:153-164 | update data of the entity's types and without `updatedAt` is accepted. It keeps an `Order` an `Order` with the same `id`, and with the same `createdAt` when the data does not carry one |
| Orders.UpdatedPricesConsistent | api/src/module/order/order.service.ts:63-71 | update data with the product of the new quantity and unit price as its total leaves the order's total consistent |
| Orders.UpdateKeepsStoredOrder | api/src/module/order/order.service.ts:56-72 | the corrected update keeps a stored order well formed and consistent under the same key, with the new quantity and unit price |
| Orders.UpdateWritesSuppliedFields | api/src/module/order/order.service.ts:64-71 | the update writes every supplied field as sent, keeps `id` and `createdAt`, and sets `updatedAt` to now |
| Orders.UpdatedWritesFields | api/src/module/order/services/dynamodb.service.ts:153-159 | attributes the update data carries are written with those values |
| Orders.StripKeepsOrder | api/src/module/order/services/dynamodb.service.ts:100 | removing `pk`/`sk` leaves a well-formed order with a consistent total and every other attribute as stored |
| Orders.UpdateAsWrittenKeepsShape | api/src/module/order/order.service.ts:56-72 | the update as written is accepted and keeps a well-typed order well typed under the key of its own id |
| Orders.OrderTableHasShapes | api/src/module/order/order.service.ts:56-72 | a table of stored orders also has the weaker shape the update as written keeps |
| Orders.OrderShapesAfterPut | api/src/module/order/services/dynamodb.service.ts:166-178 | writing a well-typed order under the key of its own id keeps the weaker shape |
| Orders.OrderShapesLookup | api/src/module/order/services/dynamodb.service.ts:83-101 | in a table of that shape, the item stored for an id is a well-typed order carrying that id |
| Orders.OrderTableAfterPut | api/src/module/order/services/dynamodb.service.ts:63-68 | putting a well-formed order under its own key keeps the table invariant |
| Orders.OrderTableAfterDelete | api/src/module/order/services/dynamodb.service.ts:199-207 | a delete keeps the table invariant |
| Orders.OrderTableLookup | api/src/module/order/services/dynamodb.service.ts:83-101 | the item stored for an id is a well-formed order carrying that id |
| Orders.OrderTableScan | api/src/module/order/services/dynamodb.service.ts:127-130 | everything the scan returns is a well-formed order with a consistent total |
| Orders.OrderService.constructor | api/src/module/order/order.service.ts:20 | the service works over the given table and, started on a table of stored orders, holds its invariant |
| Orders.OrderService.Create | api/src/module/order/order.service.ts:27-42 | stores and returns `NewOrder` for the given id and time under `ORDER#` + id, changes nothing else, and keeps the invariant |
| Orders.OrderService.FindAll | api/src/module/order/order.service.ts:44-46 | returns the scan's orders, one per order key, all well formed with consistent totals |
| Orders.OrderService.FindOne | api/src/module/order/order.service.ts:48-54 | NotFound "Order with ID … not found" exactly when the id is missing; otherwise the order, well formed and carrying that id |
| Orders.OrderService.Update | api/src/module/order/order.service.ts:56-72 | with the corrected update data: a missing id gives NotFound and writes nothing. Otherwise it writes the stored order updated with the corrected data and returns it without keys. It keeps the invariant |
| Orders.OrderService.UpdateAsWritten | api/src/module/order/order.service.ts:56-72 | the code as written: a missing id gives NotFound and writes nothing. Otherwise it writes the stored order updated with `PatchAsWritten` and returns it without keys. It keeps every order well typed under its own key |
| Orders.OrderService.Remove | api/src/module/order/order.service.ts:74-82 | a missing id gives NotFound and deletes nothing; otherwise it deletes exactly that order and keeps the invariant |
| Orders.OrderService.UploadPdf | api/src/module/order/order.service.ts:84-125 | a step-by-step run with a mutable `text` gives the same answer and runs the same stages as `Intake` |

## Left out

- Orders.OrderService.Update: uses the corrected update data (`IntendedPatch`), not the `||` logic as written. The code as written is `Orders.OrderService.UpdateAsWritten` with `PatchAsWritten`; see Findings.
- Orders.OrderService.UpdateAsWritten: keeps only `OrderShapes`, not the consistent totals of `Valid`, because the code as written can break them. So the corrected program alone keeps `Valid`, and the consistent totals that `FindAll` and `FindOne` promise hold for tables only that program wrote.
- JSON `null` is not modelled. `@IsOptional()` also lets an explicit `null` through for `status` and `shippingAddress` (create-order.dto.ts:49-51 and 58-60), and the spreads in `create` and `update` would then store a NULL attribute. The model's values are strings and numbers only, so an optional field is either supplied with a string or absent.
- ApiKeys.GetValidApiKeys: states which keys are listed and that each appears once, not their order (the `Set`'s insertion order).
- update-order.dto.ts is not part of this model. The model assumes `UpdateOrderDto` is `PartialType(CreateOrderDto)`: every create field optional, with the same `@Min` bounds.
- JavaScript numbers: quantities and prices are unbounded integers (think cents). Floating-point rounding of `quantity * unitPrice` and `NaN` are not modelled.
- `uuidv4()` and `new Date()` are parameters. The model does not show that a generated id is fresh: `Create` states the overwrite a reused id would cause.
- Read consistency: reads are modelled as strongly consistent, so a get or scan always sees the latest put or delete. The source's `GetCommand` and `ScanCommand` (dynamodb.service.ts:86-92 and 118-124) do not set `ConsistentRead`, so DynamoDB serves them eventually consistent reads, which can return the state before a recent write. DynamoDB.LookupAfterPut, DynamoDB.LookupAfterDelete, DynamoDB.OrderKeysAfterPut, DynamoDB.OrderKeysAfterDelete, Orders.OrderService.Update and Orders.OrderService.Remove hold only for strongly consistent reads. With a stale read, the existence check in `update` can pass for an order just deleted, and `UpdateItem` then recreates it as a partial item (the new-item case of `StoredOrNew`), which `Update` never reaches in the model.
- PdfIntake.Run and Orders.OrderService.UploadPdf assume that each engine call (`pdfParse`, `Tesseract.recognize`, `chain.invoke`; order.service.ts:93, 103 and 122) returns or throws. The source sets no timeout or cancellation on them, so a call that never settles blocks the request indefinitely; that outcome is not modelled.
- Concurrency: the check-then-act sequences in `update` and `remove` are modelled sequentially. Interleaving requests are not modelled.
- DynamoDB failures other than the overlapping-`updatedAt` rejection are not modelled. These are network errors, throttling and missing tables. The service rethrows them unchanged.
- DynamoDB.DynamoDBService.GetAllOrders: the order of the results is left open. Scan order and pagination are not modelled; a single `Scan` call returns at most 1 MB, and the source does not follow `LastEvaluatedKey`.
- Orders.OrderService.FindAll: states the items under order keys only. Items without an `ORDER#` key are outside the table invariant.
- An item holding attributes outside the `Order` entity cannot be represented. The validation pipe (`whitelist`, `forbidNonWhitelisted`) keeps request bodies to the entity's properties.
- `@IsEmail` and `@IsString` are represented by the model's types. Email syntax is not checked.
- The `status` enum (`pending`, `confirmed`, …) is documentation only in the source and is not enforced, so any status string is accepted.
- The DynamoDB client set-up is not modelled, and neither is the configuration read. `ALLOWED_API_KEYS` is a parameter of `NewApiKeyService`.
- Logging is not modelled.
- The internals of pdf-parse, Tesseract and the completion model are oracle parameters. The prompt text is not modelled. The completion is a function of the document text, because the prompt is fixed.
- The HTTP controller, its missing-file response and the Swagger set-up are not modelled.
- Strings are sequences of Unicode scalar values. JavaScript strings are UTF-16 code units, so lone surrogates are not modelled.
- The regular expressions' `i` flag is modelled as ASCII case folding. Without the `u` flag, that is what it does for the ASCII letters of `Bearer` and `ApiKey`.

## Findings

| source | as written | input that shows it | evidently intended | confidence | as-written member | corrected member |
|---|---|---|---|---|---|---|
| api/src/module/order/order.service.ts:65-67 | `update` recomputes the total only when `quantity \|\| unitPrice` is truthy, and takes each factor as `dto.x \|\| stored.x`. A supplied `0` therefore counts as missing, yet `{ ...updateOrderDto }` still writes it. | `PATCH` with `{ "unitPrice": 0 }` (allowed by `@Min(0)`) on an order with quantity 2 and unit price 100. The stored order gets unit price 0 and keeps total 200. | A supplied unit price of 0 gives total `quantity * 0 = 0`, so `totalPrice == quantity * unitPrice` still holds. Presence decides (`??`), not truthiness. | not executed; shown by proof over the assumed update body (update-order.dto.ts is not part of this model) | Orders.PatchAsWritten, Orders.OrderService.UpdateAsWritten, Orders.UnitPriceZeroBreaksTotal | Orders.IntendedPatch, Orders.UpdateKeepsStoredOrder |
