/** `Just::String::From`: the stream-building serialisers. Each keeps its
    loop over the elements, appending to the content the way the source
    appends to its `ostringstream`, and is proved against the layout it
    produces (module Join). How one element is turned into text (`Any`, the
    stream's `operator<<`) is a parameter. */
module StringFrom {
  import opened Join

  /** `From::Array(data, arrSize, delimiter)`: the first `arrSize` elements
      in index order, with the delimiter only between consecutive ones; a
      count of 0 or below gives "". */
  method Array<T>(data: array<T>, arrSize: int, delimiter: string, render: T -> string) returns (s: string)
    requires arrSize <= data.Length
    ensures arrSize <= 0 ==> s == ""
    ensures arrSize > 0 ==> s == JoinBetween(RenderAll(data[..arrSize], render), delimiter)
  {
    var content := "";
    var i := 0;
    while i < arrSize
      invariant 0 <= i <= (if arrSize > 0 then arrSize else 0)
      invariant content == JoinBetween(RenderAll(data[..i], render), delimiter)
                           + (if 0 < i < arrSize then delimiter else "")
    {
      ghost var items := RenderAll(data[..arrSize], render);
      assert items[..i] == RenderAll(data[..i], render);
      assert items[..i + 1] == RenderAll(data[..i + 1], render);
      if i > 0 {
        JoinBetweenSplit(items, delimiter, i);
      }
      content := content + render(data[i]);
      if i < arrSize - 1 {
        content := content + delimiter;
      }
      i := i + 1;
    }
    s := content;
  }

  /** `From::Iterable(data, delimiter)`: every element followed by the
      delimiter, in iteration order, then the last character cut off. */
  method Iterable<T>(data: seq<T>, delimiter: string, render: T -> string) returns (s: string)
    ensures s == TrimmedJoin(RenderAll(data, render), delimiter)
  {
    var content := "";
    var i := 0;
    while i < |data|
      invariant 0 <= i <= |data|
      invariant content == AppendEach(RenderAll(data[..i], render), delimiter)
    {
      ghost var items := RenderAll(data[..i + 1], render);
      assert items[..i] == RenderAll(data[..i], render);
      content := content + render(data[i]) + delimiter;
      i := i + 1;
    }
    assert data[..i] == data;
    s := Substr(content, 0, SizeMinusOne(|content|));
  }

  /** `From::Map(data, equalSign, delimiter)`: every entry as key, equal
      sign, value and delimiter, in the map's iteration order, then the last
      character cut off. The entries are given in that order. */
  method Map<K, V>(data: seq<(K, V)>, equalSign: string, delimiter: string,
                   renderKey: K -> string, renderValue: V -> string) returns (s: string)
    ensures s == TrimmedJoin(RenderEntries(data, equalSign, renderKey, renderValue), delimiter)
  {
    var content := "";
    var i := 0;
    while i < |data|
      invariant 0 <= i <= |data|
      invariant content == AppendEach(RenderEntries(data[..i], equalSign, renderKey, renderValue), delimiter)
    {
      ghost var entries := RenderEntries(data[..i + 1], equalSign, renderKey, renderValue);
      assert entries[..i] == RenderEntries(data[..i], equalSign, renderKey, renderValue);
      content := content + renderKey(data[i].0) + equalSign + renderValue(data[i].1) + delimiter;
      i := i + 1;
    }
    assert data[..i] == data;
    s := Substr(content, 0, SizeMinusOne(|content|));
  }
}
