/** JSON values as parsed request bodies hold them; an object lists its keys in enumeration order. */
module JsonValues {
  import opened Numerals

  datatype Num = Finite(amount: real) | NonFinite

  datatype Json =
    | Null
    | Bool(b: bool)
    | Number(n: Num)
    | Text(s: string)
    | Arr(items: seq<Json>)
    | Obj(entries: seq<Entry>)

  datatype Entry = Entry(key: string, value: Json)

  function Keys(es: seq<Entry>): set<string> {
    set i | 0 <= i < |es| :: es[i].key
  }

  predicate DistinctKeys(es: seq<Entry>) {
    forall i, j | 0 <= i < j < |es| :: es[i].key != es[j].key
  }

  /** A JavaScript object never holds one key twice. */
  predicate WellFormed(v: Json) {
    match v
    case Arr(items) => forall i | 0 <= i < |items| :: WellFormed(items[i])
    case Obj(es) => DistinctKeys(es) && forall i | 0 <= i < |es| :: WellFormed(es[i].value)
    case _ => true
  }

  /** Keys that JavaScript enumerates ahead of all others, by number: 0 to 2^32 - 2 in plain decimal. */
  predicate IsIndex(key: string) { Plain(key) && NumberOf(key) < 4_294_967_295 }

  predicate InEnumerationOrder(es: seq<Entry>) {
    forall i, j | 0 <= i < j < |es| && IsIndex(es[j].key) ::
        IsIndex(es[i].key) && NumberOf(es[i].key) < NumberOf(es[j].key)
  }

  /**
   * Every object lists its keys as a JavaScript object would: index keys by number, then the others in insertion order.
   */
  predicate Enumerated(v: Json) {
    match v
    case Arr(items) => forall i | 0 <= i < |items| :: Enumerated(items[i])
    case Obj(es) => InEnumerationOrder(es) && forall i | 0 <= i < |es| :: Enumerated(es[i].value)
    case _ => true
  }

  /** The values nested directly in v, as Object.values lists them. */
  function Children(v: Json): (cs: seq<Json>)
    ensures v.Arr? ==> cs == v.items
    ensures v.Obj? ==> |cs| == |v.entries|
  {
    match v
    case Arr(items) => items
    case Obj(es) => seq(|es|, i requires 0 <= i < |es| => es[i].value)
    case _ => []
  }

  /** No number in v is infinite or not a number. */
  predicate AllFinite(v: Json) {
    match v
    case Number(n) => n.Finite?
    case Arr(items) => forall i | 0 <= i < |items| :: AllFinite(items[i])
    case Obj(es) => forall i | 0 <= i < |es| :: AllFinite(es[i].value)
    case _ => true
  }

  predicate NoNull(v: Json) {
    match v
    case Null => false
    case Arr(items) => forall i | 0 <= i < |items| :: NoNull(items[i])
    case Obj(es) => forall i | 0 <= i < |es| :: NoNull(es[i].value)
    case _ => true
  }
}
