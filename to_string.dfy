/** `Just::ToString`: the same three layouts as `Just::String::From`, with
    every element (and every map key and value) rendered through the
    `ToString` overloads instead of the stream operator. `ToString` itself
    is a parameter; the loops are those of module StringFrom. */
module ToString {
  import opened Join
  import StringFrom

  /** `ArrayToString(data, arrSize, delimiter)`: the first `arrSize`
      renderings in index order, the delimiter only between them. */
  method ArrayToString<T>(data: array<T>, arrSize: int, delimiter: string, toString: T -> string)
    returns (s: string)
    requires arrSize <= data.Length
    ensures arrSize <= 0 ==> s == ""
    ensures arrSize > 0 ==> s == JoinBetween(RenderAll(data[..arrSize], toString), delimiter)
  {
    s := StringFrom.Array(data, arrSize, delimiter, toString);
  }

  /** `ListToString(data, delimiter)`: each rendering followed by the
      delimiter, then the last character cut off. */
  method ListToString<T>(data: seq<T>, delimiter: string, toString: T -> string) returns (s: string)
    ensures s == TrimmedJoin(RenderAll(data, toString), delimiter)
  {
    s := StringFrom.Iterable(data, delimiter, toString);
  }

  /** `MapToString(data, equalSign, delimiter)`: `ToString(key)`, the equal
      sign, `ToString(value)` and the delimiter for every entry in the
      map's iteration order, then the last character cut off. */
  method MapToString<K, V>(data: seq<(K, V)>, equalSign: string, delimiter: string,
                           keyToString: K -> string, valueToString: V -> string) returns (s: string)
    ensures s == TrimmedJoin(RenderEntries(data, equalSign, keyToString, valueToString), delimiter)
  {
    s := StringFrom.Map(data, equalSign, delimiter, keyToString, valueToString);
  }
}
