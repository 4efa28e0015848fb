/** The order table: items addressed by a composite (pk, sk) key that is
    `"ORDER#" + id` in both parts, with put, get, prefix-filtered scan, sparse
    update and delete. The pure functions first say what each operation does to
    the table's contents; the class `DynamoDBService` then performs them in place. */
module DynamoDB {
  import opened Outcomes
  import opened OrderRecord

  const KeyPrefix: string := "ORDER#"

  /** The attributes `updateOrder` never writes from the update data. */
  predicate ExcludedFromUpdate(a: Attr) {
    a == Id || a == Pk || a == Sk
  }

  /** The `SET` assignments taken from the update data. */
  function Assignments(data: Item): Item {
    map a | a in data && !ExcludedFromUpdate(a) :: data[a]
  }

  /** A DynamoDB primary key: partition key and sort key. */
  datatype Key = Key(pk: string, sk: string)

  /** The key of order `id`. */
  function KeyOf(id: string): Key {
    Key(KeyPrefix + id, KeyPrefix + id)
  }

  /** DynamoDB's `begins_with(pk, "ORDER#")`. */
  predicate HasOrderPrefix(s: string) {
    |KeyPrefix| <= |s| && s[..|KeyPrefix|] == KeyPrefix
  }

  /** The key attributes as they appear inside an item. */
  function KeyAttributes(k: Key): Item {
    map[Pk := Str(k.pk), Sk := Str(k.sk)]
  }

  predicate KeyAttributesIn(item: Item, k: Key) {
    Pk in item && item[Pk] == Str(k.pk) && Sk in item && item[Sk] == Str(k.sk)
  }

  /** DynamoDB keeps an item's key attributes inside the item. */
  ghost predicate KeysStored(items: map<Key, Item>) {
    forall k :: k in items ==> KeyAttributesIn(items[k], k)
  }

  predicate HasId(order: Item) {
    HasStr(order, Id)
  }

  function IdOf(order: Item): string
    requires HasId(order)
  {
    order[Id].s
  }

  /** `{ ...order, pk, sk }`: the record with its key attributes attached. */
  function WithKeys(order: Item): (r: Item)
    requires HasId(order)
    ensures KeyAttributesIn(r, KeyOf(IdOf(order)))
    ensures forall a :: a != Pk && a != Sk ==> (a in r <==> a in order)
    ensures forall a :: a in order && a != Pk && a != Sk ==> r[a] == order[a]
  {
    order + KeyAttributes(KeyOf(IdOf(order)))
  }

  /** `const { pk, sk, ...order } = item`. */
  function Strip(item: Item): (r: Item)
    ensures Pk !in r && Sk !in r
    ensures forall a :: a != Pk && a != Sk ==> (a in r <==> a in item)
    ensures forall a :: a in r ==> r[a] == item[a]
  {
    item - {Pk, Sk}
  }

  /** What `getOrder(id)` returns for a table holding `items`. */
  function Lookup(items: map<Key, Item>, id: string): (r: Option<Item>)
    ensures r.None? <==> KeyOf(id) !in items
    ensures r.Some? ==> Pk !in r.value && Sk !in r.value
    ensures r.Some? ==> forall a :: a != Pk && a != Sk ==>
      (a in r.value <==> a in items[KeyOf(id)]) && (a in r.value ==> r.value[a] == items[KeyOf(id)][a])
  {
    if KeyOf(id) in items then Some(Strip(items[KeyOf(id)])) else None
  }

  /** The keys the scan's filter expression keeps. */
  function OrderKeys(items: map<Key, Item>): (r: set<Key>)
    ensures r <= items.Keys
    ensures forall id :: KeyOf(id) in items ==> KeyOf(id) in r
  {
    set k | k in items && HasOrderPrefix(k.pk)
  }

  /** The item an update starts from: the stored one, or (DynamoDB's UpdateItem
      creates missing items) just the key attributes. */
  function StoredOrNew(items: map<Key, Item>, id: string): (r: Item)
    ensures KeyOf(id) in items ==> r == items[KeyOf(id)]
    ensures KeysStored(items) ==> KeyAttributesIn(r, KeyOf(id))
    ensures KeyOf(id) !in items ==> forall a :: a in r ==> a == Pk || a == Sk
  {
    if KeyOf(id) in items then items[KeyOf(id)] else KeyAttributes(KeyOf(id))
  }

  /** The full item after `SET`ting every attribute of `data` other than `id`,
      `pk` and `sk`, and `updatedAt`, over `base`. An `updatedAt` in `data` puts
      two assignments to the same path into one expression, which DynamoDB refuses. */
  function Updated(base: Item, data: Item, now: string): (r: Result<Item, Failure>)
    ensures r.Err? <==> UpdatedAt in data
    ensures r.Ok? ==> forall a :: a in r.value <==> a in base || (a in data && !ExcludedFromUpdate(a)) || a == UpdatedAt
    ensures r.Ok? ==> r.value[UpdatedAt] == Str(now)
    ensures r.Ok? ==> forall a :: a in data && !ExcludedFromUpdate(a) ==> r.value[a] == data[a]
    ensures r.Ok? ==> forall a :: a in base && a != UpdatedAt && (a !in data || ExcludedFromUpdate(a)) ==> r.value[a] == base[a]
  {
    if UpdatedAt in data then
      Err(StoreRejected("Two document paths overlap with each other"))
    else
      Ok(base + Assignments(data)[UpdatedAt := Str(now)])
  }

  /** Adding the key attributes an item already carries changes nothing. */
  lemma KeysAlreadyStored(item: Item, k: Key)
    requires KeyAttributesIn(item, k)
    ensures item + KeyAttributes(k) == item
  {
    assert KeyAttributes(k) == map[Pk := item[Pk], Sk := item[Sk]];
  }

  /** Both key parts are the same string, and different ids never share a key. */
  lemma KeyOfInjective(a: string, b: string)
    ensures KeyOf(a).pk == KeyOf(a).sk
    ensures KeyOf(a) == KeyOf(b) <==> a == b
  {
    if KeyOf(a) == KeyOf(b) {
      assert a == KeyOf(a).pk[|KeyPrefix|..];
      assert b == KeyOf(b).pk[|KeyPrefix|..];
    }
  }

  /** Every order key passes the scan's filter. */
  lemma KeyOfHasOrderPrefix(id: string)
    ensures HasOrderPrefix(KeyOf(id).pk)
  {
    assert (KeyPrefix + id)[..|KeyPrefix|] == KeyPrefix;
  }

  /** After a put of `order`, getting its id gives `order` without `pk`/`sk`,
      whatever was stored there before; every other id reads as before. */
  lemma LookupAfterPut(items: map<Key, Item>, order: Item, other: string)
    requires HasId(order)
    ensures Lookup(items[KeyOf(IdOf(order)) := WithKeys(order)], IdOf(order)) == Some(order - {Pk, Sk})
    ensures other != IdOf(order) ==>
      Lookup(items[KeyOf(IdOf(order)) := WithKeys(order)], other) == Lookup(items, other)
  {
    KeyOfInjective(other, IdOf(order));
    assert Strip(WithKeys(order)) == order - {Pk, Sk};
  }

  /** After a delete, the id reads as missing and every other id as before. */
  lemma LookupAfterDelete(items: map<Key, Item>, id: string, other: string)
    ensures Lookup(items - {KeyOf(id)}, id) == None
    ensures other != id ==> Lookup(items - {KeyOf(id)}, other) == Lookup(items, other)
  {
    KeyOfInjective(other, id);
  }

  /** A put adds its key to what the scan returns, and nothing else. */
  lemma OrderKeysAfterPut(items: map<Key, Item>, id: string, item: Item)
    ensures OrderKeys(items[KeyOf(id) := item]) == OrderKeys(items) + {KeyOf(id)}
  {
    KeyOfHasOrderPrefix(id);
  }

  /** A delete removes its key from what the scan returns, and nothing else. */
  lemma OrderKeysAfterDelete(items: map<Key, Item>, id: string)
    ensures OrderKeys(items - {KeyOf(id)}) == OrderKeys(items) - {KeyOf(id)}
  {
  }

  /** An update keeps the key attributes of the item it writes. */
  lemma UpdatedKeepsKeys(items: map<Key, Item>, id: string, data: Item, now: string)
    requires KeysStored(items)
    requires Updated(StoredOrNew(items, id), data, now).Ok?
    ensures KeysStored(items[KeyOf(id) := Updated(StoredOrNew(items, id), data, now).value])
  {
    var base := StoredOrNew(items, id);
    assert KeyAttributesIn(base, KeyOf(id));
  }

  /** The order table, updated in place by put, update and delete. */
  class DynamoDBService {
    var items: map<Key, Item>

    ghost predicate Valid()
      reads this
    {
      KeysStored(items)
    }

    /** The table as it stands when the service starts (the client set-up itself
        is not modelled). */
    constructor(init: map<Key, Item>)
      requires KeysStored(init)
      ensures Valid() && items == init
    {
      items := init;
    }

    /** `createOrder`: an unconditional put under the order's key, overwriting any
        item already there; returns the record with `pk` and `sk` attached. */
    method CreateOrder(order: Item) returns (r: Item)
      requires Valid()
      requires HasId(order)
      modifies this
      ensures Valid()
      ensures r == WithKeys(order)
      ensures items == old(items)[KeyOf(IdOf(order)) := r]
    {
      var k := KeyOf(IdOf(order));
      r := order + KeyAttributes(k);
      items := items[k := r];
    }

    /** `getOrder`: the item without `pk`/`sk`, or `null` when there is none. */
    method GetOrder(id: string) returns (r: Option<Item>)
      ensures r == Lookup(items, id)
      ensures r.None? <==> KeyOf(id) !in items
      ensures r.Some? ==> r.value == Strip(items[KeyOf(id)])
    {
      var k := KeyOf(id);
      if k in items {
        r := Some(Strip(items[k]));
      } else {
        r := None;
      }
    }

    /** `getAllOrders`: every item whose `pk` begins with `ORDER#`, each once, in
        scan order (`keys` records which key each element came from). */
    method GetAllOrders() returns (r: seq<Item>, ghost keys: seq<Key>)
      ensures |keys| == |r|
      ensures forall i :: 0 <= i < |r| ==> keys[i] in OrderKeys(items) && r[i] == Strip(items[keys[i]])
      ensures forall i, j :: 0 <= i < j < |keys| ==> keys[i] != keys[j]
      ensures forall k :: k in OrderKeys(items) ==> k in keys
      ensures |r| == |OrderKeys(items)|
      ensures forall k :: k in OrderKeys(items) ==> Strip(items[k]) in r
    {
      var pending := OrderKeys(items);
      r, keys := [], [];
      while pending != {}
        invariant pending <= OrderKeys(items)
        invariant |keys| == |r|
        invariant |r| + |pending| == |OrderKeys(items)|
        invariant forall k :: k in OrderKeys(items) && k !in pending ==> Strip(items[k]) in r
        invariant forall i :: 0 <= i < |r| ==> keys[i] in OrderKeys(items) && keys[i] !in pending && r[i] == Strip(items[keys[i]])
        invariant forall i, j :: 0 <= i < j < |keys| ==> keys[i] != keys[j]
        invariant forall k :: k in OrderKeys(items) ==> k in pending || k in keys
        decreases pending
      {
        var k :| k in pending;
        r, keys := r + [Strip(items[k])], keys + [k];
        pending := pending - {k};
      }
    }

    /** `updateOrder`: gathers the `SET` assignments one attribute at a time,
        skipping `id`, `pk` and `sk`, adds `updatedAt`, and writes them over the
        stored item (or a new one: DynamoDB does not check existence). Returns the
        whole merged item without `pk`/`sk`. */
    method UpdateOrder(id: string, updateData: Item, now: string) returns (r: Result<Item, Failure>)
      requires Valid()
      modifies this
      ensures Valid()
      ensures var u := Updated(StoredOrNew(old(items), id), updateData, now);
        && (u.Err? ==> r == u && items == old(items))
        && (u.Ok? ==> r == Ok(Strip(u.value)) && items == old(items)[KeyOf(id) := u.value])
    {
      var pending := updateData.Keys;
      var assignments: Item := map[];
      while pending != {}
        invariant pending <= updateData.Keys
        invariant assignments == map a | a in updateData && a !in pending && !ExcludedFromUpdate(a) :: updateData[a]
        decreases pending
      {
        var key :| key in pending;
        if key != Id && key != Pk && key != Sk {
          assignments := assignments[key := updateData[key]];
        }
        pending := pending - {key};
      }
      assert assignments == Assignments(updateData);
      if UpdatedAt in assignments {
        r := Err(StoreRejected("Two document paths overlap with each other"));
        return;
      }
      assignments := assignments[UpdatedAt := Str(now)];
      var k := KeyOf(id);
      var base := if k in items then items[k] else KeyAttributes(k);
      var merged := base + assignments;
      UpdatedKeepsKeys(items, id, updateData, now);
      items := items[k := merged];
      r := Ok(Strip(merged));
    }

    /** `deleteOrder`: removes the item at the key, present or not. */
    method DeleteOrder(id: string)
      requires Valid()
      modifies this
      ensures Valid()
      ensures items == old(items) - {KeyOf(id)}
    {
      items := items - {KeyOf(id)};
    }
  }
}
