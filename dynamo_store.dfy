/** The key-value store behind the catalog, reduced to what the service's
    requests need: attribute values, items keyed by `productId`, and the
    effect of a put, an attribute update and a delete on a table.  The
    store is an external collaborator; its failures reach the service as a
    `DynamoDbException` with a message, modelled as `Fault(message)`. */
module DynamoStore {
  import opened Java

  /** An attribute value: a string (`s`, which may be null when built from a
      null Java string) or a number (`n`; the decimal text of a number is
      abstracted to its value). */
  datatype AttributeValue = S(s: JString) | N(n: real)

  /** One stored record: attribute name to value. */
  type Item = map<string, AttributeValue>

  /** The outcome of one store call: a value, or a `DynamoDbException` with its message. */
  datatype StoreResult<+T> = Ok(value: T) | Fault(message: string)

  /** The table's partition key. */
  const KeyAttribute: string := "productId"

  /** The store's reply to a request it refuses: a missing, empty or
      over-long key, a string attribute built from a null Java string, or a
      number outside the store's range. */
  const ValidationMessage: string := "One or more parameter values were invalid"

  /** An update of one attribute: overwrite it, or add a number to it. */
  datatype AttributeUpdate = Put(value: AttributeValue) | Add(value: AttributeValue)

  /** The key an item is stored under, when it has a non-null string key. */
  function KeyOf(item: Item): (r: Option<string>)
    ensures r.Some? ==> KeyAttribute in item && item[KeyAttribute] == S(Some(r.value))
    ensures r.None? ==> KeyAttribute !in item || !item[KeyAttribute].S? || item[KeyAttribute].s.None?
  {
    if KeyAttribute in item && item[KeyAttribute].S? && item[KeyAttribute].s.Some?
    then Some(item[KeyAttribute].s.value)
    else None
  }

  /** The largest key the store accepts, in bytes of its UTF-8 encoding. */
  const MaxKeyBytes: nat := 2048

  /** The number of bytes of the UTF-8 encoding of one character. */
  function Utf8Width(c: char): (r: nat)
    ensures 1 <= r <= 4
  {
    if c as int < 0x80 then 1
    else if c as int < 0x800 then 2
    else if c as int < 0x1_0000 then 3
    else 4
  }

  /** The number of bytes of the UTF-8 encoding of a string. */
  function Utf8Length(s: string): (r: nat)
    ensures |s| <= r <= 4 * |s|
    decreases |s|
  {
    if s == [] then 0 else Utf8Width(s[0]) + Utf8Length(s[1..])
  }

  /** An ASCII string takes one byte per character. */
  lemma {:induction false} AsciiLength(s: string)
    requires forall i :: 0 <= i < |s| ==> s[i] as int < 0x80
    ensures Utf8Length(s) == |s|
    decreases |s|
  {
    if s != [] {
      AsciiLength(s[1..]);
    }
  }

  /** A key value the store accepts: not empty, and at most 2048 bytes long. */
  predicate ValidKey(key: string) {
    key != "" && Utf8Length(key) <= MaxKeyBytes
  }

  /** The largest magnitude of a stored number: 38 nines times 10^88,
      that is 9.9999999999999999999999999999999999999E+125. */
  const MaxMagnitude: real := 9.9999999999999999999999999999999999999e125

  /** The smallest magnitude of a stored number other than zero. */
  const MinMagnitude: real := 1.0e-130

  /** A number the store accepts: zero, or a magnitude from 1E-130 up to
      9.99...9E+125. */
  predicate ValidNumber(x: real) {
    x == 0.0 || (MinMagnitude <= x <= MaxMagnitude) || (-MaxMagnitude <= x <= -MinMagnitude)
  }

  /** Every Java `int`, indeed every integer of at most 125 digits, is a
      number the store accepts. */
  lemma IntegerNumber(k: int)
    requires -1.0e125 <= k as real <= 1.0e125
    ensures ValidNumber(k as real)
  {
    if k > 0 {
      assert 1.0 <= k as real;
    } else if k < 0 {
      assert k as real <= -1.0;
    }
  }

  /** An item the store accepts: a valid string key, no string attribute
      built from a null Java string, and only numbers within range. */
  predicate Storable(item: Item) {
    && KeyOf(item).Some? && ValidKey(KeyOf(item).value)
    && (forall a :: a in item ==> item[a] != S(None))
    && (forall a :: a in item && item[a].N? ==> ValidNumber(item[a].n))
  }

  /** `putItem`: the item replaces whatever was stored under its key. */
  function PutItem(table: map<string, Item>, item: Item): (r: StoreResult<map<string, Item>>)
    ensures r.Ok? <==> Storable(item)
    ensures r.Ok? ==> r.value.Keys == table.Keys + {KeyOf(item).value}
    ensures r.Ok? ==> r.value[KeyOf(item).value] == item
    ensures r.Ok? ==> forall k :: k in table && k != KeyOf(item).value ==> r.value[k] == table[k]
  {
    if Storable(item) then Ok(table[KeyOf(item).value := item]) else Fault(ValidationMessage)
  }

  /** The new value of one attribute under one update; `Add` on a missing
      attribute starts from zero, and on a string it is refused.  A number
      out of range, given or computed, is refused. */
  function Updated(current: Option<AttributeValue>, u: AttributeUpdate): (r: StoreResult<AttributeValue>)
    ensures r.Ok? && r.value.N? ==> ValidNumber(r.value.n)
  {
    match u
    case Put(v) =>
      if v.N? && !ValidNumber(v.n) then Fault(ValidationMessage) else Ok(v)
    case Add(v) =>
      if !v.N? || !ValidNumber(v.n) then Fault(ValidationMessage)
      else match current
        case None => Ok(v)
        case Some(N(x)) => if ValidNumber(x + v.n) then Ok(N(x + v.n)) else Fault(ValidationMessage)
        case Some(S(_)) => Fault(ValidationMessage)
  }

  function Lookup(item: Item, a: string): Option<AttributeValue> {
    if a in item then Some(item[a]) else None
  }

  /** `updateItem` with attribute updates: an invalid key is refused; an
      absent key starts from an item holding only the key; each named
      attribute is updated, every other attribute is kept. */
  function UpdateItem(table: map<string, Item>, key: string, updates: map<string, AttributeUpdate>)
    : (r: StoreResult<map<string, Item>>)
    ensures r.Ok? <==> ValidKey(key) && forall a :: a in updates ==>
      Updated(Lookup(if key in table then table[key] else map[KeyAttribute := S(Some(key))], a), updates[a]).Ok?
    ensures r.Ok? ==> r.value.Keys == table.Keys + {key}
    ensures r.Ok? ==> forall k :: k in table && k != key ==> r.value[k] == table[k]
  {
    var before := if key in table then table[key] else map[KeyAttribute := S(Some(key))];
    if ValidKey(key) && forall a :: a in updates ==> Updated(Lookup(before, a), updates[a]).Ok? then
      var after := map a | a in before.Keys + updates.Keys ::
        if a in updates then Updated(Lookup(before, a), updates[a]).value else before[a];
      Ok(table[key := after])
    else
      Fault(ValidationMessage)
  }

  /** `deleteItem` with no condition: an invalid key is refused; otherwise
      the key is gone, whether or not it was there, and every other item
      stays. */
  function DeleteItem(table: map<string, Item>, key: string): (r: StoreResult<map<string, Item>>)
    ensures r.Ok? <==> ValidKey(key)
    ensures r.Ok? ==> r.value.Keys == table.Keys - {key}
    ensures r.Ok? ==> forall k :: k in r.value ==> r.value[k] == table[k]
  {
    if ValidKey(key) then Ok(table - {key}) else Fault(ValidationMessage)
  }

  /** The table a client reaches: shared by every request, updated in place
      by the store calls. */
  class Table {
    var items: map<string, Item>

    constructor (items: map<string, Item>)
      ensures this.items == items
    {
      this.items := items;
    }
  }
}
