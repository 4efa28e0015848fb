/** The order service: create, list, read, update and delete orders over the
    DynamoDB table, keeping every stored order well formed and its total equal to
    quantity times unit price; and the PDF intake, performed step by step. */
module Orders {
  import opened Outcomes
  import opened OrderRecord
  import opened DynamoDB
  import opened JsText
  import opened PdfIntake

  const DefaultStatus: string := "pending"

  /** The body of `POST /orders`, as the validation pipe lets it through (no
      property beyond these). */
  datatype CreateOrderDto = CreateOrderDto(
    customerName: string,
    customerEmail: string,
    productName: string,
    quantity: int,
    unitPrice: int,
    status: Option<string>,
    shippingAddress: Option<string>)

  /** The body of `PATCH /orders/:id`: every create field, each optional. */
  datatype UpdateOrderDto = UpdateOrderDto(
    customerName: Option<string>,
    customerEmail: Option<string>,
    productName: Option<string>,
    quantity: Option<int>,
    unitPrice: Option<int>,
    status: Option<string>,
    shippingAddress: Option<string>)

  /** The `@Min` bounds the validation pipe enforces. */
  predicate ValidCreateDto(dto: CreateOrderDto) {
    dto.quantity >= 1 && dto.unitPrice >= 0
  }

  predicate ValidUpdateDto(dto: UpdateOrderDto) {
    (dto.quantity.Some? ==> dto.quantity.value >= 1) && (dto.unitPrice.Some? ==> dto.unitPrice.value >= 0)
  }

  /** The value of attribute `a` in `{ ...updateOrderDto }`: there only when the
      property was supplied. */
  function Supplied(dto: UpdateOrderDto, a: Attr): Option<Value> {
    match a
    case CustomerName => if dto.customerName.Some? then Some(Str(dto.customerName.value)) else None
    case CustomerEmail => if dto.customerEmail.Some? then Some(Str(dto.customerEmail.value)) else None
    case ProductName => if dto.productName.Some? then Some(Str(dto.productName.value)) else None
    case Quantity => if dto.quantity.Some? then Some(Num(dto.quantity.value)) else None
    case UnitPrice => if dto.unitPrice.Some? then Some(Num(dto.unitPrice.value)) else None
    case Status => if dto.status.Some? then Some(Str(dto.status.value)) else None
    case ShippingAddress => if dto.shippingAddress.Some? then Some(Str(dto.shippingAddress.value)) else None
    case _ => None
  }

  /** The properties the update body may carry. */
  predicate IsUpdateField(a: Attr) {
    match a
    case CustomerName | CustomerEmail | ProductName | Quantity | UnitPrice | Status | ShippingAddress => true
    case _ => false
  }

  /** `{ ...updateOrderDto }`: each property exactly when it was supplied, with
      the value sent, typed as the entity types it; nothing else. */
  function UpdateDtoItem(dto: UpdateOrderDto): (r: Item)
    ensures forall a :: a in r ==> IsUpdateField(a) && WellTyped(a, r[a])
    ensures CustomerName in r <==> dto.customerName.Some?
    ensures dto.customerName.Some? ==> r[CustomerName] == Str(dto.customerName.value)
    ensures CustomerEmail in r <==> dto.customerEmail.Some?
    ensures dto.customerEmail.Some? ==> r[CustomerEmail] == Str(dto.customerEmail.value)
    ensures ProductName in r <==> dto.productName.Some?
    ensures dto.productName.Some? ==> r[ProductName] == Str(dto.productName.value)
    ensures Quantity in r <==> dto.quantity.Some?
    ensures dto.quantity.Some? ==> r[Quantity] == Num(dto.quantity.value)
    ensures UnitPrice in r <==> dto.unitPrice.Some?
    ensures dto.unitPrice.Some? ==> r[UnitPrice] == Num(dto.unitPrice.value)
    ensures Status in r <==> dto.status.Some?
    ensures dto.status.Some? ==> r[Status] == Str(dto.status.value)
    ensures ShippingAddress in r <==> dto.shippingAddress.Some?
    ensures dto.shippingAddress.Some? ==> r[ShippingAddress] == Str(dto.shippingAddress.value)
  {
    map a | a in AllAttrs && Supplied(dto, a).Some? :: Supplied(dto, a).value
  }

  /** Attribute `a` of the record `create` builds: the fresh id and its key
      attributes, the body, the derived total, `pending` for a missing or empty
      status, and both timestamps set to now. The body's own `status` is spread
      first and then overwritten, so it appears here once, already defaulted. */
  function Created(dto: CreateOrderDto, orderId: string, now: string, a: Attr): Option<Value> {
    match a
    case Id => Some(Str(orderId))
    case Pk | Sk => Some(Str(KeyPrefix + orderId))
    case CustomerName => Some(Str(dto.customerName))
    case CustomerEmail => Some(Str(dto.customerEmail))
    case ProductName => Some(Str(dto.productName))
    case Quantity => Some(Num(dto.quantity))
    case UnitPrice => Some(Num(dto.unitPrice))
    case TotalPrice => Some(Num(dto.quantity * dto.unitPrice))
    case Status => Some(Str(if dto.status.Some? && dto.status.value != "" then dto.status.value else DefaultStatus))
    case ShippingAddress => if dto.shippingAddress.Some? then Some(Str(dto.shippingAddress.value)) else None
    case CreatedAt | UpdatedAt => Some(Str(now))
    case PdfFileName | PdfFilePath | PdfFileSize => None
  }

  const AllAttrs: set<Attr> :=
    {Id, Pk, Sk, CustomerName, CustomerEmail, ProductName, Quantity, UnitPrice, TotalPrice,
     Status, ShippingAddress, CreatedAt, UpdatedAt, PdfFileName, PdfFilePath, PdfFileSize}

  /** The record `create` builds: every attribute but the PDF ones, the address
      only when supplied; the body's fields as sent, `totalPrice = quantity *
      unitPrice`, the status defaulted to `pending` when missing or empty, and
      `createdAt == updatedAt == now`. */
  function NewOrder(dto: CreateOrderDto, orderId: string, now: string): (o: Item)
    ensures forall a :: a in o <==>
      a != PdfFileName && a != PdfFilePath && a != PdfFileSize && (a == ShippingAddress ==> dto.shippingAddress.Some?)
    ensures o[Id] == Str(orderId) && o[Pk] == Str(KeyPrefix + orderId) && o[Sk] == Str(KeyPrefix + orderId)
    ensures o[CustomerName] == Str(dto.customerName)
    ensures o[CustomerEmail] == Str(dto.customerEmail)
    ensures o[ProductName] == Str(dto.productName)
    ensures o[Quantity] == Num(dto.quantity) && o[UnitPrice] == Num(dto.unitPrice)
    ensures o[TotalPrice] == Num(dto.quantity * dto.unitPrice)
    ensures dto.status.Some? && dto.status.value != "" ==> o[Status] == Str(dto.status.value)
    ensures dto.status.None? || dto.status == Some("") ==> o[Status] == Str(DefaultStatus)
    ensures o[CreatedAt] == Str(now) && o[UpdatedAt] == Str(now)
    ensures dto.shippingAddress.Some? ==> o[ShippingAddress] == Str(dto.shippingAddress.value)
    ensures IsOrderAttributes(o)
  {
    var o := map a | a in AllAttrs && Created(dto, orderId, now, a).Some? :: Created(dto, orderId, now, a).value;
    CreatedFields(dto, orderId, now, o);
    o
  }

  /** A record holding exactly the attributes `Created` gives holds these fields. */
  lemma CreatedFields(dto: CreateOrderDto, orderId: string, now: string, o: Item)
    requires forall a :: a in o <==> Created(dto, orderId, now, a).Some?
    requires forall a :: a in o ==> o[a] == Created(dto, orderId, now, a).value
    ensures forall a :: a in o <==>
      a != PdfFileName && a != PdfFilePath && a != PdfFileSize && (a == ShippingAddress ==> dto.shippingAddress.Some?)
    ensures o[Id] == Str(orderId) && o[Pk] == Str(KeyPrefix + orderId) && o[Sk] == Str(KeyPrefix + orderId)
    ensures o[CustomerName] == Str(dto.customerName)
    ensures o[CustomerEmail] == Str(dto.customerEmail)
    ensures o[ProductName] == Str(dto.productName)
    ensures o[Quantity] == Num(dto.quantity) && o[UnitPrice] == Num(dto.unitPrice)
    ensures o[TotalPrice] == Num(dto.quantity * dto.unitPrice)
    ensures dto.status.Some? && dto.status.value != "" ==> o[Status] == Str(dto.status.value)
    ensures dto.status.None? || dto.status == Some("") ==> o[Status] == Str(DefaultStatus)
    ensures o[CreatedAt] == Str(now) && o[UpdatedAt] == Str(now)
    ensures dto.shippingAddress.Some? ==> o[ShippingAddress] == Str(dto.shippingAddress.value)
    ensures IsOrderAttributes(o)
  {
    CreatedDomain(dto, orderId, now);
  }

  /** The attributes `create` sets: all but the PDF ones, the address only when sent. */
  lemma CreatedDomain(dto: CreateOrderDto, orderId: string, now: string)
    ensures forall a :: Created(dto, orderId, now, a).Some? <==>
      a != PdfFileName && a != PdfFilePath && a != PdfFileSize && (a == ShippingAddress ==> dto.shippingAddress.Some?)
    ensures forall a :: Created(dto, orderId, now, a).Some? ==> WellTyped(a, Created(dto, orderId, now, a).value)
  {
  }

  /** `x || y` on an optional number: `x` when supplied and non-zero. */
  function OrNum(x: Option<int>, y: int): int {
    if x.Some? && x.value != 0 then x.value else y
  }

  /** The update data `update` sends, as written: the total is recomputed when
      quantity or unit price is truthy, each falling back to the stored value when
      not truthy, so a supplied `0` counts as missing. */
  function PatchAsWritten(dto: UpdateOrderDto, storedQuantity: int, storedUnitPrice: int): (r: Item)
    ensures forall a :: a in r ==> WellTyped(a, r[a]) && (IsUpdateField(a) || a == TotalPrice)
    ensures forall a :: a != TotalPrice ==> (a in r <==> a in UpdateDtoItem(dto))
    ensures forall a :: a in UpdateDtoItem(dto) ==> a in r && r[a] == UpdateDtoItem(dto)[a]
    ensures TotalPrice in r <==> (dto.quantity.Some? && dto.quantity.value != 0) || (dto.unitPrice.Some? && dto.unitPrice.value != 0)
    ensures TotalPrice in r ==>
      r[TotalPrice] == Num(OrNum(dto.quantity, storedQuantity) * OrNum(dto.unitPrice, storedUnitPrice))
  {
    var updatedData := UpdateDtoItem(dto);
    if (dto.quantity.Some? && dto.quantity.value != 0) || (dto.unitPrice.Some? && dto.unitPrice.value != 0) then
      updatedData[TotalPrice := Num(OrNum(dto.quantity, storedQuantity) * OrNum(dto.unitPrice, storedUnitPrice))]
    else
      updatedData
  }

  /** `x ?? y`: `x` whenever supplied. */
  function OrElse(x: Option<int>, y: int): int {
    if x.Some? then x.value else y
  }

  /** The update data with the total recomputed whenever quantity or unit price is
      supplied, from the values the order will hold afterwards. */
  function IntendedPatch(dto: UpdateOrderDto, storedQuantity: int, storedUnitPrice: int): (r: Item)
    ensures forall a :: a in r ==> WellTyped(a, r[a]) && (IsUpdateField(a) || a == TotalPrice)
    ensures forall a :: a != TotalPrice ==> (a in r <==> a in UpdateDtoItem(dto))
    ensures forall a :: a in UpdateDtoItem(dto) ==> a in r && r[a] == UpdateDtoItem(dto)[a]
    ensures TotalPrice in r <==> dto.quantity.Some? || dto.unitPrice.Some?
    ensures TotalPrice in r ==>
      r[TotalPrice] == Num(OrElse(dto.quantity, storedQuantity) * OrElse(dto.unitPrice, storedUnitPrice))
  {
    var updatedData := UpdateDtoItem(dto);
    if dto.quantity.Some? || dto.unitPrice.Some? then
      updatedData[TotalPrice := Num(OrElse(dto.quantity, storedQuantity) * OrElse(dto.unitPrice, storedUnitPrice))]
    else
      updatedData
  }

  /** What the service keeps true of an item under an order key: the entity's
      attributes, a consistent total, and the key is the one of its own id. */
  predicate StoredOrder(k: Key, item: Item) {
    IsOrderAttributes(item) && PriceConsistent(item) && k == KeyOf(IdOf(item))
  }

  /** A created order is a well-formed record with a consistent total, stored
      under the key of its own id and carrying that key's attributes. */
  lemma NewOrderIsStoredOrder(dto: CreateOrderDto, orderId: string, now: string)
    ensures StoredOrder(KeyOf(orderId), NewOrder(dto, orderId, now))
    ensures KeyAttributesIn(NewOrder(dto, orderId, now), KeyOf(orderId))
    ensures WithKeys(NewOrder(dto, orderId, now)) == NewOrder(dto, orderId, now)
  {
    var o := NewOrder(dto, orderId, now);
    assert IdOf(o) == orderId;
    KeysAlreadyStored(o, KeyOf(orderId));
  }

  /** On every body the validation pipe admits, the two patches differ only when
      a unit price of `0` is supplied. */
  lemma PatchesAgreeUnlessUnitPriceZero(dto: UpdateOrderDto, storedQuantity: int, storedUnitPrice: int)
    requires ValidUpdateDto(dto)
    requires dto.unitPrice != Some(0)
    ensures PatchAsWritten(dto, storedQuantity, storedUnitPrice) == IntendedPatch(dto, storedQuantity, storedUnitPrice)
  {
    assert ((dto.quantity.Some? && dto.quantity.value != 0) || (dto.unitPrice.Some? && dto.unitPrice.value != 0))
        == (dto.quantity.Some? || dto.unitPrice.Some?);
    assert OrNum(dto.quantity, storedQuantity) == OrElse(dto.quantity, storedQuantity);
    assert OrNum(dto.unitPrice, storedUnitPrice) == OrElse(dto.unitPrice, storedUnitPrice);
  }

  /** Updating only the quantity recomputes the total from the stored unit price. */
  lemma QuantityAloneUsesStoredPrice(q: int, storedQuantity: int, storedUnitPrice: int)
    requires q != 0
    ensures var dto := UpdateOrderDto(None, None, None, Some(q), None, None, None);
      && PatchAsWritten(dto, storedQuantity, storedUnitPrice) == map[Quantity := Num(q), TotalPrice := Num(q * storedUnitPrice)]
      && IntendedPatch(dto, storedQuantity, storedUnitPrice) == PatchAsWritten(dto, storedQuantity, storedUnitPrice)
  {
    var dto := UpdateOrderDto(None, None, None, Some(q), None, None, None);
    assert UpdateDtoItem(dto) == map[Quantity := Num(q)];
  }

  /** Without quantity and unit price the update data is the body as sent: the
      total is not touched. */
  lemma NoPriceFieldsNoTotal(dto: UpdateOrderDto, storedQuantity: int, storedUnitPrice: int)
    requires dto.quantity.None? && dto.unitPrice.None?
    ensures PatchAsWritten(dto, storedQuantity, storedUnitPrice) == UpdateDtoItem(dto)
    ensures IntendedPatch(dto, storedQuantity, storedUnitPrice) == UpdateDtoItem(dto)
    ensures TotalPrice !in IntendedPatch(dto, storedQuantity, storedUnitPrice)
  {
  }

  /** An update without quantity and unit price, as written or corrected, leaves
      the stored quantity, unit price and total as they were and sets `updatedAt`
      to now. */
  lemma NoPriceFieldsKeepPrices(stored: Item, dto: UpdateOrderDto, storedQuantity: int, storedUnitPrice: int, now: string)
    requires IsOrderAttributes(stored)
    requires dto.quantity.None? && dto.unitPrice.None?
    ensures var u := Updated(stored, PatchAsWritten(dto, storedQuantity, storedUnitPrice), now);
      && u.Ok?
      && u == Updated(stored, IntendedPatch(dto, storedQuantity, storedUnitPrice), now)
      && Quantity in u.value && u.value[Quantity] == stored[Quantity]
      && UnitPrice in u.value && u.value[UnitPrice] == stored[UnitPrice]
      && TotalPrice in u.value && u.value[TotalPrice] == stored[TotalPrice]
      && UpdatedAt in u.value && u.value[UpdatedAt] == Str(now)
  {
    NoPriceFieldsNoTotal(dto, storedQuantity, storedUnitPrice);
    var fields := UpdateDtoItem(dto);
    assert Quantity !in fields && UnitPrice !in fields && TotalPrice !in fields && UpdatedAt !in fields;
    PatchKeepsPrices(stored, fields, now);
  }

  lemma PatchKeepsPrices(stored: Item, patch: Item, now: string)
    requires IsOrderAttributes(stored)
    requires Quantity !in patch && UnitPrice !in patch && TotalPrice !in patch && UpdatedAt !in patch
    ensures var u := Updated(stored, patch, now);
      && u.Ok?
      && Quantity in u.value && u.value[Quantity] == stored[Quantity]
      && UnitPrice in u.value && u.value[UnitPrice] == stored[UnitPrice]
      && TotalPrice in u.value && u.value[TotalPrice] == stored[TotalPrice]
      && UpdatedAt in u.value && u.value[UpdatedAt] == Str(now)
  {
  }

  /** A body the validation pipe admits gives an order with quantity at least 1
      and a unit price and total that are not negative. */
  lemma ValidBodyGivesNonNegativeTotal(dto: CreateOrderDto, orderId: string, now: string)
    requires ValidCreateDto(dto)
    ensures var o := NewOrder(dto, orderId, now);
      o[Quantity].n >= 1 && o[UnitPrice].n >= 0 && o[TotalPrice].n >= 0
  {
  }

  /** As written, a unit price of `0` (which `@Min(0)` admits) is stored, but the
      total is computed from the old unit price, so it stays what it was: every
      consistent order with a non-zero total is left inconsistent. */
  lemma UnitPriceZeroBreaksTotal(stored: Item, now: string)
    requires IsOrderAttributes(stored) && PriceConsistent(stored) && stored[TotalPrice] != Num(0)
    ensures var dto := UpdateOrderDto(None, None, None, None, Some(0), None, None);
      var u := Updated(stored, PatchAsWritten(dto, stored[Quantity].n, stored[UnitPrice].n), now);
      && ValidUpdateDto(dto)
      && u.Ok?
      && u.value[UnitPrice] == Num(0)
      && u.value[Quantity] == stored[Quantity]
      && u.value[TotalPrice] == stored[TotalPrice]
      && !PriceConsistent(u.value)
  {
    ZeroUnitPricePatch(stored[Quantity].n, stored[UnitPrice].n);
    UpdatedKeepsOrderAttributes(stored, map[UnitPrice := Num(0)], now);
  }

  /** A body holding only `unitPrice: 0`: as written it leaves the total out; the
      corrected patch recomputes it as zero. */
  lemma ZeroUnitPricePatch(storedQuantity: int, storedUnitPrice: int)
    ensures var dto := UpdateOrderDto(None, None, None, None, Some(0), None, None);
      && PatchAsWritten(dto, storedQuantity, storedUnitPrice) == map[UnitPrice := Num(0)]
      && IntendedPatch(dto, storedQuantity, storedUnitPrice) == map[UnitPrice := Num(0), TotalPrice := Num(0)]
  {
    var dto := UpdateOrderDto(None, None, None, None, Some(0), None, None);
    assert UpdateDtoItem(dto) == map[UnitPrice := Num(0)];
  }

  /** The smallest such order: 2 items at 100, created with total 200. */
  lemma TwoAtOneHundred()
    ensures var o := NewOrder(CreateOrderDto("John Doe", "john.doe@example.com", "Wheelchair", 2, 100, None, None), "1", "t0");
      StoredOrder(KeyOf("1"), o) && o[TotalPrice] == Num(200) && o[Status] == Str(DefaultStatus)
  {
    NewOrderIsStoredOrder(CreateOrderDto("John Doe", "john.doe@example.com", "Wheelchair", 2, 100, None, None), "1", "t0");
  }

  /** Update data typed as the entity types it, without `updatedAt`, is accepted
      and keeps an `Order` an `Order` with the same `id` and `createdAt`. */
  lemma UpdatedKeepsOrderAttributes(stored: Item, patch: Item, now: string)
    requires IsOrderAttributes(stored)
    requires forall a :: a in patch ==> WellTyped(a, patch[a])
    requires UpdatedAt !in patch
    ensures Updated(stored, patch, now).Ok?
    ensures IsOrderAttributes(Updated(stored, patch, now).value)
    ensures Updated(stored, patch, now).value[Id] == stored[Id]
    ensures CreatedAt !in patch ==> Updated(stored, patch, now).value[CreatedAt] == stored[CreatedAt]
  {
  }

  /** When the update data carries the new quantity and unit price (or leaves them
      as stored) and, with either, their product as the total, the updated order's
      total is consistent again. */
  lemma UpdatedPricesConsistent(stored: Item, patch: Item, now: string, newQuantity: int, newUnitPrice: int)
    requires PriceConsistent(stored)
    requires UpdatedAt !in patch
    requires if Quantity in patch then patch[Quantity] == Num(newQuantity) else stored[Quantity] == Num(newQuantity)
    requires if UnitPrice in patch then patch[UnitPrice] == Num(newUnitPrice) else stored[UnitPrice] == Num(newUnitPrice)
    requires if TotalPrice in patch then patch[TotalPrice] == Num(newQuantity * newUnitPrice)
             else Quantity !in patch && UnitPrice !in patch
    ensures Updated(stored, patch, now).Ok?
    ensures var m := Updated(stored, patch, now).value;
      && m[Quantity] == Num(newQuantity) && m[UnitPrice] == Num(newUnitPrice)
      && PriceConsistent(m)
  {
  }

  /** The corrected update keeps a stored order a stored order, with the new
      quantity and unit price and the total recomputed from them. */
  lemma UpdateKeepsStoredOrder(k: Key, stored: Item, dto: UpdateOrderDto, now: string)
    requires StoredOrder(k, stored)
    ensures var u := Updated(stored, IntendedPatch(dto, stored[Quantity].n, stored[UnitPrice].n), now);
      && u.Ok?
      && StoredOrder(k, u.value)
      && u.value[Quantity] == Num(OrElse(dto.quantity, stored[Quantity].n))
      && u.value[UnitPrice] == Num(OrElse(dto.unitPrice, stored[UnitPrice].n))
  {
    var q, p := stored[Quantity].n, stored[UnitPrice].n;
    PatchKeepsStoredOrder(k, stored, IntendedPatch(dto, q, p), now, OrElse(dto.quantity, q), OrElse(dto.unitPrice, p));
  }

  lemma PatchKeepsStoredOrder(k: Key, stored: Item, patch: Item, now: string, newQuantity: int, newUnitPrice: int)
    requires StoredOrder(k, stored)
    requires forall a :: a in patch ==> WellTyped(a, patch[a]) && (IsUpdateField(a) || a == TotalPrice)
    requires if Quantity in patch then patch[Quantity] == Num(newQuantity) else stored[Quantity] == Num(newQuantity)
    requires if UnitPrice in patch then patch[UnitPrice] == Num(newUnitPrice) else stored[UnitPrice] == Num(newUnitPrice)
    requires if TotalPrice in patch then patch[TotalPrice] == Num(newQuantity * newUnitPrice)
             else Quantity !in patch && UnitPrice !in patch
    ensures var u := Updated(stored, patch, now);
      && u.Ok?
      && StoredOrder(k, u.value)
      && u.value[Quantity] == Num(newQuantity)
      && u.value[UnitPrice] == Num(newUnitPrice)
  {
    UpdatedKeepsOrderAttributes(stored, patch, now);
    UpdatedPricesConsistent(stored, patch, now, newQuantity, newUnitPrice);
  }

  /** The corrected update writes every supplied field as sent, keeps `id` and
      `createdAt`, and sets `updatedAt` to now. */
  lemma UpdateWritesSuppliedFields(stored: Item, dto: UpdateOrderDto, storedQuantity: int, storedUnitPrice: int, now: string)
    requires IsOrderAttributes(stored)
    ensures var u := Updated(stored, IntendedPatch(dto, storedQuantity, storedUnitPrice), now);
      && u.Ok?
      && (forall a :: a in UpdateDtoItem(dto) ==> a in u.value && u.value[a] == UpdateDtoItem(dto)[a])
      && Id in u.value && u.value[Id] == stored[Id]
      && CreatedAt in u.value && u.value[CreatedAt] == stored[CreatedAt]
      && UpdatedAt in u.value && u.value[UpdatedAt] == Str(now)
  {
    var patch, fields := IntendedPatch(dto, storedQuantity, storedUnitPrice), UpdateDtoItem(dto);
    assert forall a :: a in fields ==> a in patch && patch[a] == fields[a] && IsUpdateField(a);
    PatchWritesFields(stored, patch, now, fields);
  }

  lemma PatchWritesFields(stored: Item, patch: Item, now: string, fields: Item)
    requires IsOrderAttributes(stored)
    requires forall a :: a in patch ==> WellTyped(a, patch[a]) && (IsUpdateField(a) || a == TotalPrice)
    requires forall a :: a in fields ==> a in patch && patch[a] == fields[a] && IsUpdateField(a)
    ensures var u := Updated(stored, patch, now);
      && u.Ok?
      && (forall a :: a in fields ==> a in u.value && u.value[a] == fields[a])
      && Id in u.value && u.value[Id] == stored[Id]
      && CreatedAt in u.value && u.value[CreatedAt] == stored[CreatedAt]
      && UpdatedAt in u.value && u.value[UpdatedAt] == Str(now)
  {
    UpdatedKeepsOrderAttributes(stored, patch, now);
    UpdatedWritesFields(stored, patch, now, fields);
  }

  /** Fields the update data carries unchanged are written as they are. */
  lemma UpdatedWritesFields(stored: Item, patch: Item, now: string, fields: Item)
    requires UpdatedAt !in patch
    requires forall a :: a in fields ==> a in patch && patch[a] == fields[a] && IsUpdateField(a)
    ensures Updated(stored, patch, now).Ok?
    ensures forall a :: a in fields ==> a in Updated(stored, patch, now).value && Updated(stored, patch, now).value[a] == fields[a]
  {
  }

  /** Every item under an order key is a stored order. */
  ghost predicate OrderTable(items: map<Key, Item>) {
    forall k :: k in items && HasOrderPrefix(k.pk) ==> StoredOrder(k, items[k])
  }

  /** Removing the key attributes leaves an `Order` with the same business fields. */
  lemma StripKeepsOrder(item: Item)
    requires IsOrderAttributes(item) && PriceConsistent(item)
    ensures IsOrderAttributes(Strip(item)) && PriceConsistent(Strip(item))
    ensures forall a :: a in item && a != Pk && a != Sk ==> a in Strip(item) && Strip(item)[a] == item[a]
  {
  }

  /** What every item under an order key keeps even under the update as
      written: the entity's attributes, under the key of its own id. */
  ghost predicate OrderShapes(items: map<Key, Item>) {
    forall k :: k in items && HasOrderPrefix(k.pk) ==> IsOrderAttributes(items[k]) && k == KeyOf(IdOf(items[k]))
  }

  /** A table of stored orders has that shape. */
  lemma OrderTableHasShapes(items: map<Key, Item>)
    requires OrderTable(items)
    ensures OrderShapes(items)
  {
  }

  lemma OrderShapesAfterPut(items: map<Key, Item>, k: Key, item: Item)
    requires OrderShapes(items) && IsOrderAttributes(item) && k == KeyOf(IdOf(item))
    ensures OrderShapes(items[k := item])
  {
  }

  /** The item stored for `id` in such a table is an `Order` whose `id` is `id`. */
  lemma OrderShapesLookup(items: map<Key, Item>, id: string)
    requires OrderShapes(items) && KeyOf(id) in items
    ensures IsOrderAttributes(items[KeyOf(id)])
    ensures IdOf(items[KeyOf(id)]) == id
  {
    KeyOfHasOrderPrefix(id);
    KeyOfInjective(id, IdOf(items[KeyOf(id)]));
  }

  /** The update as written keeps an `Order` an `Order` under the key of its
      own id, though not its total consistent. */
  lemma UpdateAsWrittenKeepsShape(k: Key, stored: Item, dto: UpdateOrderDto, now: string)
    requires IsOrderAttributes(stored) && k == KeyOf(IdOf(stored))
    ensures var u := Updated(stored, PatchAsWritten(dto, stored[Quantity].n, stored[UnitPrice].n), now);
      && u.Ok?
      && IsOrderAttributes(u.value)
      && k == KeyOf(IdOf(u.value))
  {
    PatchKeepsShape(k, stored, PatchAsWritten(dto, stored[Quantity].n, stored[UnitPrice].n), now);
  }

  lemma PatchKeepsShape(k: Key, stored: Item, patch: Item, now: string)
    requires IsOrderAttributes(stored) && k == KeyOf(IdOf(stored))
    requires forall a :: a in patch ==> WellTyped(a, patch[a]) && (IsUpdateField(a) || a == TotalPrice)
    ensures var u := Updated(stored, patch, now);
      && u.Ok?
      && IsOrderAttributes(u.value)
      && k == KeyOf(IdOf(u.value))
  {
    UpdatedKeepsOrderAttributes(stored, patch, now);
    assert IdOf(Updated(stored, patch, now).value) == IdOf(stored);
  }

  lemma OrderTableAfterPut(items: map<Key, Item>, k: Key, item: Item)
    requires OrderTable(items) && StoredOrder(k, item)
    ensures OrderTable(items[k := item])
  {
  }

  lemma OrderTableAfterDelete(items: map<Key, Item>, k: Key)
    requires OrderTable(items)
    ensures OrderTable(items - {k})
  {
  }

  /** The order stored for `id` is an `Order` whose `id` is `id`. */
  lemma OrderTableLookup(items: map<Key, Item>, id: string)
    requires OrderTable(items) && KeyOf(id) in items
    ensures StoredOrder(KeyOf(id), items[KeyOf(id)])
    ensures items[KeyOf(id)][Id] == Str(id)
  {
    KeyOfHasOrderPrefix(id);
    KeyOfInjective(id, IdOf(items[KeyOf(id)]));
  }

  /** Everything the scan returns is an `Order` with a consistent total. */
  lemma OrderTableScan(items: map<Key, Item>)
    requires OrderTable(items)
    ensures forall k :: k in OrderKeys(items) ==> IsOrderAttributes(Strip(items[k])) && PriceConsistent(Strip(items[k]))
  {
    forall k | k in OrderKeys(items)
      ensures IsOrderAttributes(Strip(items[k])) && PriceConsistent(Strip(items[k]))
    {
      StripKeepsOrder(items[k]);
    }
  }

  /** The order API over the table. */
  class OrderService {
    const db: DynamoDBService

    ghost predicate Valid()
      reads this, db
    {
      db.Valid() && OrderTable(db.items)
    }

    constructor(db: DynamoDBService)
      requires db.Valid() && OrderTable(db.items)
      ensures this.db == db
      ensures Valid()
    {
      this.db := db;
    }

    /** `create`: builds the record under the given id and time and puts it,
        replacing whatever was stored there. */
    method Create(dto: CreateOrderDto, orderId: string, now: string) returns (r: Item)
      requires Valid()
      modifies db
      ensures Valid()
      ensures r == NewOrder(dto, orderId, now)
      ensures db.items == old(db.items)[KeyOf(orderId) := r]
    {
      var order := NewOrder(dto, orderId, now);
      NewOrderIsStoredOrder(dto, orderId, now);
      OrderTableAfterPut(db.items, KeyOf(orderId), order);
      r := db.CreateOrder(order);
    }

    /** `findAll`: every stored order, each once, as well-formed records with a
        consistent total. */
    method FindAll() returns (r: seq<Item>, ghost keys: seq<Key>)
      requires Valid()
      ensures |keys| == |r|
      ensures forall i :: 0 <= i < |r| ==> keys[i] in OrderKeys(db.items) && r[i] == Strip(db.items[keys[i]])
      ensures forall i, j :: 0 <= i < j < |keys| ==> keys[i] != keys[j]
      ensures forall k :: k in OrderKeys(db.items) ==> k in keys
      ensures |r| == |OrderKeys(db.items)|
      ensures forall k :: k in OrderKeys(db.items) ==> Strip(db.items[k]) in r
      ensures forall i :: 0 <= i < |r| ==> IsOrderAttributes(r[i]) && PriceConsistent(r[i])
    {
      OrderTableScan(db.items);
      r, keys := db.GetAllOrders();
    }

    /** `findOne`: the order, or NotFound naming the id. */
    method FindOne(id: string) returns (r: Result<Item, Failure>)
      requires Valid()
      ensures Lookup(db.items, id).None? ==> r == Err(NotFound("Order with ID " + id + " not found"))
      ensures Lookup(db.items, id).Some? ==> r == Ok(Lookup(db.items, id).value)
      ensures r.Ok? ==> IsOrderAttributes(r.value) && PriceConsistent(r.value) && r.value[Id] == Str(id)
    {
      var order := db.GetOrder(id);
      if order.None? {
        return Err(NotFound("Order with ID " + id + " not found"));
      }
      OrderTableLookup(db.items, id);
      StripKeepsOrder(db.items[KeyOf(id)]);
      r := Ok(order.value);
    }

    /** `update`: NotFound for a missing order (nothing written); otherwise writes
        the supplied fields, the recomputed total and `updatedAt`, and returns the
        merged order. */
    method Update(id: string, dto: UpdateOrderDto, now: string) returns (r: Result<Item, Failure>)
      requires Valid()
      modifies db
      ensures Valid()
      ensures KeyOf(id) !in old(db.items) ==>
        r == Err(NotFound("Order with ID " + id + " not found")) && db.items == old(db.items)
      ensures KeyOf(id) in old(db.items) ==>
        var stored := old(db.items)[KeyOf(id)];
        var u := Updated(stored, IntendedPatch(dto, stored[Quantity].n, stored[UnitPrice].n), now);
        && u.Ok?
        && r == Ok(Strip(u.value))
        && db.items == old(db.items)[KeyOf(id) := u.value]
    {
      var existingOrder := db.GetOrder(id);
      if existingOrder.None? {
        return Err(NotFound("Order with ID " + id + " not found"));
      }
      OrderTableLookup(db.items, id);
      var stored := db.items[KeyOf(id)];
      UpdateKeepsStoredOrder(KeyOf(id), stored, dto, now);
      var u := Updated(stored, IntendedPatch(dto, stored[Quantity].n, stored[UnitPrice].n), now);
      OrderTableAfterPut(db.items, KeyOf(id), u.value);
      var updatedData := IntendedPatch(dto, existingOrder.value[Quantity].n, existingOrder.value[UnitPrice].n);
      r := db.UpdateOrder(id, updatedData, now);
    }

    /** `update` as written, with `||`: NotFound for a missing order; otherwise
        writes the update data `PatchAsWritten` gives. It keeps every order an
        `Order` under its own key, but not its total consistent (see
        `UnitPriceZeroBreaksTotal`), so it needs and keeps only `OrderShapes`. */
    method UpdateAsWritten(id: string, dto: UpdateOrderDto, now: string) returns (r: Result<Item, Failure>)
      requires db.Valid() && OrderShapes(db.items)
      modifies db
      ensures db.Valid() && OrderShapes(db.items)
      ensures KeyOf(id) !in old(db.items) ==>
        r == Err(NotFound("Order with ID " + id + " not found")) && db.items == old(db.items)
      ensures KeyOf(id) in old(db.items) ==>
        var stored := old(db.items)[KeyOf(id)];
        var u := Updated(stored, PatchAsWritten(dto, stored[Quantity].n, stored[UnitPrice].n), now);
        && u.Ok?
        && r == Ok(Strip(u.value))
        && db.items == old(db.items)[KeyOf(id) := u.value]
    {
      var existingOrder := db.GetOrder(id);
      if existingOrder.None? {
        return Err(NotFound("Order with ID " + id + " not found"));
      }
      OrderShapesLookup(db.items, id);
      var stored := db.items[KeyOf(id)];
      UpdateAsWrittenKeepsShape(KeyOf(id), stored, dto, now);
      var u := Updated(stored, PatchAsWritten(dto, stored[Quantity].n, stored[UnitPrice].n), now);
      OrderShapesAfterPut(db.items, KeyOf(id), u.value);
      assert existingOrder.value[Quantity] == stored[Quantity] && existingOrder.value[UnitPrice] == stored[UnitPrice];
      var updatedData := PatchAsWritten(dto, existingOrder.value[Quantity].n, existingOrder.value[UnitPrice].n);
      r := db.UpdateOrder(id, updatedData, now);
    }

    /** `remove`: NotFound for a missing order; otherwise deletes it. */
    method Remove(id: string) returns (r: Result<(), Failure>)
      requires Valid()
      modifies db
      ensures Valid()
      ensures KeyOf(id) !in old(db.items) ==>
        r == Err(NotFound("Order with ID " + id + " not found")) && db.items == old(db.items)
      ensures KeyOf(id) in old(db.items) ==> r == Ok(()) && db.items == old(db.items) - {KeyOf(id)}
    {
      var existingOrder := db.GetOrder(id);
      if existingOrder.None? {
        return Err(NotFound("Order with ID " + id + " not found"));
      }
      OrderTableAfterDelete(db.items, KeyOf(id));
      db.DeleteOrder(id);
      r := Ok(());
    }

    /** `uploadPdf`: the type check, the digital text, the OCR fallback when that
        text is empty, and the completion, in one pass with a mutable `text`; it
        answers as the intake pipeline does and runs the same stages. */
    method UploadPdf(mimetype: string, e: Engines) returns (r: Result<string, Failure>, ghost trace: seq<Stage>)
      ensures r == Intake(mimetype, e).0
      ensures trace == Intake(mimetype, e).1
    {
      trace := [TypeCheck];
      var text := "";
      if mimetype != PdfMediaType {
        NonPdfRejected(mimetype, e);
        return Err(BadRequest(NotPdfMessage)), trace;
      }
      trace := trace + [DigitalExtract];
      if e.pdfParse.Succeeded? {
        text := Trim(e.pdfParse.text);
      }
      if text == "" {
        trace := trace + [OpticalFallback];
        if e.ocr.Threw? {
          OcrFailureIsFatal(e);
          return Err(UpstreamError), trace;
        }
        text := e.ocr.text;
        OcrTextGoesToCompletion(e);
      } else {
        DigitalTextGoesToCompletion(e);
      }
      trace := trace + [FieldExtraction(text)];
      var response := e.completion(text);
      if response.Threw? {
        return Err(UpstreamError), trace;
      }
      r := Ok(response.text);
    }
  }
}
