/** The two ways the string serialisers lay rendered elements out, as pure
    specifications:
    - `JoinBetween`: the delimiter only between consecutive elements (the
      index loops of `From::Array` and `ArrayToString`);
    - `TrimmedJoin`: the delimiter after every element, then one trailing
      character cut off with `substr(0, size() - 1)` (the iterator loops of
      `From::Iterable`, `ListToString`, `From::Map` and `MapToString`). */
module Join {

  /** `std::string::npos`, the largest `size_t` on a 64-bit build. */
  const Npos: nat := 0xFFFF_FFFF_FFFF_FFFF

  /** The rendering of every element, in order. */
  function RenderAll<T>(xs: seq<T>, render: T -> string): (r: seq<string>)
    ensures |r| == |xs|
    ensures forall i :: 0 <= i < |xs| ==> r[i] == render(xs[i])
  {
    seq(|xs|, i requires 0 <= i < |xs| => render(xs[i]))
  }

  /** The text of one map entry: key, equal sign, value. */
  function Entry(key: string, equalSign: string, value: string): string {
    key + equalSign + value
  }

  /** The entry texts of a map, in its iteration order. */
  function RenderEntries<K, V>(entries: seq<(K, V)>, equalSign: string,
                               renderKey: K -> string, renderValue: V -> string): (r: seq<string>)
    ensures |r| == |entries|
    ensures forall i :: 0 <= i < |entries| ==>
      r[i] == renderKey(entries[i].0) + equalSign + renderValue(entries[i].1)
  {
    seq(|entries|, i requires 0 <= i < |entries| =>
      Entry(renderKey(entries[i].0), equalSign, renderValue(entries[i].1)))
  }

  /** The elements with the delimiter between consecutive ones and nowhere
      else; "" for no elements. */
  function JoinBetween(items: seq<string>, delim: string): string {
    if |items| == 0 then ""
    else if |items| == 1 then items[0]
    else JoinBetween(items[..|items| - 1], delim) + delim + items[|items| - 1]
  }

  /** Every element followed by the delimiter. */
  function AppendEach(items: seq<string>, delim: string): string {
    if |items| == 0 then ""
    else AppendEach(items[..|items| - 1], delim) + items[|items| - 1] + delim
  }

  /** `size() - 1` on an unsigned `size_t`: 0 wraps around to npos (no
      string is long enough for any other size to wrap). */
  function SizeMinusOne(n: nat): nat {
    if n == 0 then Npos else n - 1
  }

  /** `s.substr(pos, count)`: at most `count` characters from `pos`. */
  function Substr(s: string, pos: nat, count: nat): (r: string)
    requires pos <= |s|
    ensures |r| <= count && |r| <= |s| - pos
    ensures r == s[pos..pos + |r|]
    ensures |r| == count || pos + |r| == |s|
  {
    if count <= |s| - pos then s[pos..pos + count] else s[pos..]
  }

  /** `content.substr(0, content.size() - 1)`. */
  function Trimmed(content: string): string
  {
    Substr(content, 0, SizeMinusOne(|content|))
  }

  /** Trimming removes exactly the last character of a non-empty string and
      leaves the empty string empty. */
  lemma TrimmedDropsLast(content: string)
    ensures |content| == 0 ==> Trimmed(content) == ""
    ensures |content| > 0 ==> Trimmed(content) == content[..|content| - 1]
  {
  }

  /** The serialisation of the iterator-based loops. */
  function TrimmedJoin(items: seq<string>, delim: string): string
  {
    Trimmed(AppendEach(items, delim))
  }

  /** Total length of a sequence of strings. */
  function SumLengths(items: seq<string>): nat {
    if |items| == 0 then 0 else SumLengths(items[..|items| - 1]) + |items[|items| - 1]|
  }

  /** The element at index `i` sits in the between-only join right after
      the join of the elements before it and a delimiter. */
  lemma {:induction false} JoinBetweenSplit(items: seq<string>, delim: string, i: nat)
    requires 0 < i < |items|
    ensures JoinBetween(items[..i + 1], delim) == JoinBetween(items[..i], delim) + delim + items[i]
  {
    assert items[..i + 1][..i] == items[..i];
  }

  /** Appending a delimiter after every element is the between-only join
      with one more delimiter at the end. */
  lemma {:induction false} AppendEachIsJoinPlusDelim(items: seq<string>, delim: string)
    requires items != []
    ensures AppendEach(items, delim) == JoinBetween(items, delim) + delim
  {
    if |items| > 1 {
      AppendEachIsJoinPlusDelim(items[..|items| - 1], delim);
    } else {
      assert items[..0] == [];
    }
  }

  /** The length of the between-only join: every element plus one
      delimiter per gap. */
  lemma {:induction false} JoinBetweenLength(items: seq<string>, delim: string)
    requires items != []
    ensures |JoinBetween(items, delim)| == SumLengths(items) + (|items| - 1) * |delim|
  {
    if |items| == 1 {
      assert items[..0] == [];
    } else {
      JoinBetweenLength(items[..|items| - 1], delim);
    }
  }

  /** The length of the appended-delimiter content. */
  lemma {:induction false} AppendEachLength(items: seq<string>, delim: string)
    ensures |AppendEach(items, delim)| == SumLengths(items) + |items| * |delim|
  {
    if items != [] {
      AppendEachLength(items[..|items| - 1], delim);
    }
  }

  /** No elements serialise to "" in both layouts: the content is empty and
      `size() - 1` wraps to npos, so the whole (empty) content is kept. */
  lemma EmptyJoins(delim: string)
    ensures JoinBetween([], delim) == ""
    ensures AppendEach([], delim) == ""
    ensures TrimmedJoin([], delim) == ""
  {
  }

  /** The trimmed serialisation is a prefix of the untrimmed content, one
      character shorter when there is content. */
  lemma TrimmedJoinIsPrefix(items: seq<string>, delim: string)
    ensures var c := AppendEach(items, delim);
      TrimmedJoin(items, delim) <= c &&
      (|c| > 0 ==> |TrimmedJoin(items, delim)| == |c| - 1)
  {
    TrimmedDropsLast(AppendEach(items, delim));
  }

  /** With a non-empty delimiter, the trimmed serialisation is the
      between-only join followed by the delimiter minus its last character. */
  lemma TrimmedJoinIsJoinPlusPartialDelim(items: seq<string>, delim: string)
    requires items != [] && delim != []
    ensures TrimmedJoin(items, delim) == JoinBetween(items, delim) + delim[..|delim| - 1]
  {
    var j := JoinBetween(items, delim);
    AppendEachIsJoinPlusDelim(items, delim);
    TrimmedDropsLast(j + delim);
    assert (j + delim)[..|j + delim| - 1] == j + delim[..|delim| - 1];
  }

  /** With a one-character delimiter both layouts agree. */
  lemma OneCharDelimiterAgrees(items: seq<string>, delim: string)
    requires |delim| == 1
    ensures TrimmedJoin(items, delim) == JoinBetween(items, delim)
  {
    if items != [] {
      TrimmedJoinIsJoinPlusPartialDelim(items, delim);
      assert delim[..0] == "";
    }
  }

  /** With an empty delimiter the trimmed serialisation loses the last
      character of the elements' text instead of a delimiter. */
  lemma EmptyDelimiterDropsElementChar(items: seq<string>)
    requires SumLengths(items) > 0
    ensures var j := JoinBetween(items, "");
      |j| > 0 && TrimmedJoin(items, "") == j[..|j| - 1]
  {
    AppendEachIsJoinPlusDelim(items, "");
    JoinBetweenLength(items, "");
    TrimmedDropsLast(AppendEach(items, ""));
  }

  /** The layout of `From::Array(_arr, 3, ",")` on `{1, 2, 3}`. */
  lemma ArrayExample()
    ensures JoinBetween(["1", "2", "3"], ",") == "1,2,3"
  {
    assert ["1", "2", "3"][..2] == ["1", "2"];
    assert ["1", "2"][..1] == ["1"];
  }

  /** The layout of `From::Iterable` and of `From::Map(_dict, ":", ",")` on
      `{1, 2, 3}` and `{1: "a", 2: "b", 3: "c"}`. */
  lemma TrimmedExamples()
    ensures TrimmedJoin(["1", "2", "3"], ",") == "1,2,3"
    ensures TrimmedJoin(["1:a", "2:b", "3:c"], ",") == "1:a,2:b,3:c"
  {
    ArrayExample();
    OneCharDelimiterAgrees(["1", "2", "3"], ",");
    assert ["1:a", "2:b", "3:c"][..2] == ["1:a", "2:b"];
    assert ["1:a", "2:b"][..1] == ["1:a"];
    OneCharDelimiterAgrees(["1:a", "2:b", "3:c"], ",");
  }

  /** With the two-character delimiter ", " the iterator-based layout keeps
      a stray "," after the last element, where the between-only layout
      (and the evident intent) ends with the element. */
  lemma MultiCharDelimiterLeavesComma()
    ensures TrimmedJoin(["1", "2"], ", ") == "1, 2,"
    ensures JoinBetween(["1", "2"], ", ") == "1, 2"
  {
    assert ["1", "2"][..1] == ["1"];
    TrimmedJoinIsJoinPlusPartialDelim(["1", "2"], ", ");
  }
}
