/** An order as DynamoDB holds it: a map from attribute name to attribute value,
    with the fields of the `Order` entity. */
module OrderRecord {
  import opened Outcomes

  /** Attribute values the order API writes. Numbers are integers here (prices in
      cents): JavaScript floating point is not modelled. */
  datatype Value = Str(s: string) | Num(n: int)

  /** The attribute names an order can carry: the properties of the `Order`
      entity, key attributes included. */
  datatype Attr =
    | Id | Pk | Sk
    | CustomerName | CustomerEmail | ProductName
    | Quantity | UnitPrice | TotalPrice
    | Status | ShippingAddress
    | CreatedAt | UpdatedAt
    | PdfFileName | PdfFilePath | PdfFileSize

  /** A DynamoDB item, an `Order` or a `Partial<Order>`: its attributes and values. */
  type Item = map<Attr, Value>

  predicate HasStr(item: Item, name: Attr) {
    name in item && item[name].Str?
  }

  predicate HasNum(item: Item, name: Attr) {
    name in item && item[name].Num?
  }

  /** The attributes every `Order` has; the others (`pk`/`sk` inside the table,
      `shippingAddress`, the PDF fields) are optional. */
  predicate IsRequired(a: Attr) {
    match a
    case Id | CustomerName | CustomerEmail | ProductName | Quantity | UnitPrice | TotalPrice
       | Status | CreatedAt | UpdatedAt => true
    case _ => false
  }

  /** The attributes the `Order` entity types as numbers; all others are strings. */
  predicate IsNumeric(a: Attr) {
    a == Quantity || a == UnitPrice || a == TotalPrice || a == PdfFileSize
  }

  predicate WellTyped(a: Attr, v: Value) {
    if IsNumeric(a) then v.Num? else v.Str?
  }

  /** The item is an `Order`: every required attribute present, every attribute
      of the entity's type. */
  predicate IsOrderAttributes(item: Item) {
    && (forall a :: IsRequired(a) ==> a in item)
    && (forall a :: a in item ==> WellTyped(a, item[a]))
  }

  /** Quantity, unit price and total are numbers, and the derived total agrees
      with the other two. */
  predicate PriceConsistent(item: Item) {
    && HasNum(item, Quantity) && HasNum(item, UnitPrice) && HasNum(item, TotalPrice)
    && item[TotalPrice].n == item[Quantity].n * item[UnitPrice].n
  }
}
