/** The data the formatter works on: cell values, records (ordered
    name-to-value mappings) and datasets (sequences of records). */
module Values {
  import opened Text

  datatype Option<T> = None | Some(value: T)

  /** A scalar cell value as it arrives in a result set. `Num` carries
      an integer; JavaScript's `===` on these values is structural
      equality of this datatype. */
  datatype Value = Null | Undefined | Str(s: string) | Num(n: int) | Bool(b: bool)

  /** One property of a record; a record keeps its properties in
      insertion order. */
  datatype Field = Field(key: string, value: Value)

  type Record = seq<Field>

  type Dataset = seq<Record>

  function Keys(r: Record): (ks: seq<string>)
    ensures |ks| == |r| && forall i :: 0 <= i < |r| ==> ks[i] == r[i].key
  {
    seq(|r|, i requires 0 <= i < |r| => r[i].key)
  }

  /** No key occurs twice, as in a JavaScript object. */
  predicate UniqueKeys(r: Record)
  {
    forall i, j :: 0 <= i < j < |r| ==> r[i].key != r[j].key
  }

  /** `row[k]`: the value stored under `k`, or `undefined` when the record
      has no such property (see LookupMissing and LookupUnique). */
  function Lookup(r: Record, k: string): Value
    decreases |r|
  {
    if r == [] then Undefined
    else if r[0].key == k then r[0].value
    else Lookup(r[1..], k)
  }

  /** A property the record does not have reads as `undefined`. */
  lemma {:induction false} LookupMissing(r: Record, k: string)
    requires k !in Keys(r)
    ensures Lookup(r, k) == Undefined
    decreases |r|
  {
    if r != [] {
      assert Keys(r) == [r[0].key] + Keys(r[1..]);
      LookupMissing(r[1..], k);
    }
  }

  /** With no key repeated, the property at position `i` is the one read. */
  lemma {:induction false} LookupUnique(r: Record, k: string, i: nat)
    requires UniqueKeys(r)
    requires i < |r| && r[i].key == k
    ensures Lookup(r, k) == r[i].value
    decreases |r|
  {
    if i > 0 {
      assert r[0].key != k;
      LookupUnique(r[1..], k, i - 1);
    }
  }

  /** JavaScript's `String(v)`. */
  function ToStr(v: Value): string
  {
    match v
    case Null => "null"
    case Undefined => "undefined"
    case Str(s) => s
    case Num(n) => IntToString(n)
    case Bool(b) => if b then "true" else "false"
  }

  predicate IsNullish(v: Value)
  {
    v.Null? || v.Undefined?
  }

  /** `v ?? ''`: null and undefined become the empty string. */
  function OrEmpty(v: Value): (w: Value)
    ensures !IsNullish(w)
    ensures IsNullish(v) ==> w == Str("")
    ensures !IsNullish(v) ==> w == v
  {
    if IsNullish(v) then Str("") else v
  }

  /** `String(v ?? '')`, the text every renderer shows for a cell. */
  function Display(v: Value): (s: string)
    ensures IsNullish(v) ==> s == ""
    ensures !IsNullish(v) ==> s == ToStr(v)
  {
    ToStr(OrEmpty(v))
  }

  /** `String(row[col] ?? '')`. */
  function FieldText(row: Record, col: string): string
  {
    Display(Lookup(row, col))
  }
}
