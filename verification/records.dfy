/**
 The value model shared by the record manager and the dashboard.

 Every record of the tracker is a flat JavaScript object whose fields are
 strings or numbers. Such an object is modelled as a finite map from field
 name to value; a draft (`Partial<T>` in the source) has the same shape and
 may simply lack some keys. JavaScript object spread `{...a, ...b}` is map
 override, with the right-hand side winning on shared keys.
 */
module Records {

  /** Presence or absence of a value, as `undefined` versus a value in the source. */
  datatype Option<+T> = None | Some(value: T) {

    predicate IsFailure() {
      None?
    }

    function PropagateFailure<U>(): Option<U>
      requires None?
    {
      None
    }

    function Extract(): T
      requires Some?
    {
      value
    }

    /** The value, or `default` where there is none (`x ?? default`). */
    function GetOr(default: T): (r: T)
      ensures Some? ==> r == value
      ensures None? ==> r == default
    {
      if Some? then value else default
    }
  }

  /** A field value. Numbers are integers here (amounts are counted in centavos). */
  datatype Value = Str(s: string) | Num(n: int)

  /** A record, or a draft of one. */
  type Record = map<string, Value>

  const IdKey: string := "id"
  const DateAddedKey: string := "dateAdded"
  const AmountKey: string := "amount"

  /** Object spread `{...a, ...b}`: every key of either side, the right side winning. */
  function Spread(a: Record, b: Record): (r: Record)
    ensures r.Keys == a.Keys + b.Keys
    ensures forall k :: k in b ==> r[k] == b[k]
    ensures forall k :: k in a && k !in b ==> r[k] == a[k]
  {
    a + b
  }

  /** Spreading a record over itself gives the record back. */
  lemma SpreadSelf(a: Record)
    ensures Spread(a, a) == a
  {
    assert Spread(a, a).Keys == a.Keys;
  }

  /** `r.id`: the id field, or None where the object has no such key. */
  function IdOf(r: Record): Option<Value>
  {
    if IdKey in r then Some(r[IdKey]) else None
  }

  /**
   `a.id === b.id`. Strict equality of two absent fields (`undefined === undefined`)
   holds, so two records that both lack an id match each other.
   */
  predicate SameId(a: Record, b: Record)
  {
    IdOf(a) == IdOf(b)
  }

  /** `item.id !== id` for a string id: the record is kept by a delete of `id`. */
  predicate HasOtherId(item: Record, id: string)
  {
    IdOf(item) != Some(Str(id))
  }

  /** No two positions of the collection answer `===` on their ids. */
  ghost predicate UniqueIds(data: seq<Record>)
  {
    forall i, j :: 0 <= i < |data| && 0 <= j < |data| && i != j ==> IdOf(data[i]) != IdOf(data[j])
  }

  /** `id` is not the id of any record of the collection. */
  ghost predicate FreshId(data: seq<Record>, id: string)
  {
    forall i :: 0 <= i < |data| ==> HasOtherId(data[i], id)
  }
}
