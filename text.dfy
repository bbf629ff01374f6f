/** Character search over strings, as the C++ standard library does it:
    `std::string::find(c, pos)` / `wcschr` and `std::string::rfind(c)`.
    The "not found" value (npos, or a NULL pointer from wcschr) is -1. */
module Text {

  /** Index of the first `c` in `s` at or after `from`, or -1 when there is
      none (also when `from` is past the end, as `find` does). */
  function Find(s: string, c: char, from: nat): (k: int)
    decreases |s| - from
    ensures k == -1 || (from <= k < |s| && s[k] == c)
    ensures k == -1 ==> forall j :: from <= j < |s| ==> s[j] != c
    ensures k != -1 ==> forall j :: from <= j < k ==> s[j] != c
  {
    if from >= |s| then -1
    else if s[from] == c then from
    else Find(s, c, from + 1)
  }

  /** Index of the last `c` in `s`, or -1 when there is none. */
  function RFind(s: string, c: char): (k: int)
    ensures k == -1 || (0 <= k < |s| && s[k] == c)
    ensures k == -1 ==> forall j :: 0 <= j < |s| ==> s[j] != c
    ensures k != -1 ==> forall j :: k < j < |s| ==> s[j] != c
  {
    if |s| == 0 then -1
    else if s[|s| - 1] == c then |s| - 1
    else RFind(s[..|s| - 1], c)
  }
}
