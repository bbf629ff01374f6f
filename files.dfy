/** `Just::Files::CreatePath`: create every folder along a path, one
    `CreateDirectory` call per prefix that ends at a '/', stopping at the
    first failure other than "already exists". `CreateDirectory` (with the
    `GetLastError` code it leaves behind) is an oracle from the folder's
    text to its result; the narrow-to-wide conversion is the identity on
    characters. */
module Files {
  import Text

  /** `ERROR_ALREADY_EXISTS` of the Windows API. */
  const ErrorAlreadyExists: nat := 183
  /** `MAX_PATH`, the length of the `folder` buffer in characters. */
  const MaxPath: nat := 260

  /** What one `CreateDirectory` call did: made the folder, or failed with
      the code `GetLastError` then reports. */
  datatype DirResult = Created | Failed(lastError: nat)

  /** A result that stops the walk: a failure for any reason other than the
      folder being there already. */
  predicate Fatal(r: DirResult) {
    r.Failed? && r.lastError != ErrorAlreadyExists
  }

  /** `std::replace(s.begin(), s.end(), from, to)` as a value. */
  function Replaced(s: string, from: char, to: char): (r: string)
    ensures |r| == |s|
    ensures forall i :: 0 <= i < |s| ==> r[i] == (if s[i] == from then to else s[i])
  {
    seq(|s|, i requires 0 <= i < |s| => if s[i] == from then to else s[i])
  }

  /** `std::replace` in place over the characters of a string. */
  method ReplaceAll(a: array<char>, from: char, to: char)
    modifies a
    ensures a[..] == Replaced(old(a[..]), from, to)
  {
    for i := 0 to a.Length
      invariant forall j :: 0 <= j < i ==> a[j] == (if old(a[j]) == from then to else old(a[j]))
      invariant forall j :: i <= j < a.Length ==> a[j] == old(a[j])
    {
      if a[i] == from {
        a[i] := to;
      }
    }
  }

  /** The path with `fixSlashes`: every '\' turned into '/', and a '/' added
      unless the path already ends with one. */
  function Normalize(path: string): (r: string)
    requires |path| > 0
    ensures |r| > 0 && r[|r| - 1] == '/'
    ensures forall i :: 0 <= i < |r| ==> r[i] != '\\'
    ensures |r| == |path| + (if path[|path| - 1] == '/' || path[|path| - 1] == '\\' then 0 else 1)
    ensures r[..|path|] == Replaced(path, '\\', '/')
  {
    var t := Replaced(path, '\\', '/');
    if t[|t| - 1] != '/' then t + "/" else t
  }

  /** Normalising a normalised path changes nothing. */
  lemma NormalizeIdempotent(path: string)
    requires |path| > 0
    ensures Normalize(Normalize(path)) == Normalize(path)
  {
    var r := Normalize(path);
    assert Replaced(r, '\\', '/') == r;
  }

  /** The text `wcschr` walks: a wide string read through `c_str()`, which
      ends at its first NUL. */
  function CText(w: string): (r: string)
    ensures r <= w
    ensures forall i :: 0 <= i < |r| ==> r[i] != '\0'
    ensures |r| < |w| ==> w[|r|] == '\0'
  {
    if w == [] || w[0] == '\0' then [] else [w[0]] + CText(w[1..])
  }

  /** The wide path the walk runs over. */
  function WalkedPath(path: string, fixSlashes: bool): string
    requires fixSlashes ==> |path| > 0
  {
    CText(if fixSlashes then Normalize(path) else path)
  }

  /** The indices of the '/' characters of `w` at `from` or later, in
      increasing order. Each one closes a folder: the prefix `w[..k + 1]`. */
  function SlashesFrom(w: string, from: nat): seq<nat>
    decreases |w| - from
  {
    if from >= |w| then []
    else if w[from] == '/' then [from] + SlashesFrom(w, from + 1)
    else SlashesFrom(w, from + 1)
  }

  /** The slashes of `w` whose prefixes `CreatePath` hands to
      `CreateDirectory`, in that order. */
  function Slashes(w: string): seq<nat> {
    SlashesFrom(w, 0)
  }

  /** The folders of `w` in creation order: every prefix that ends at a '/'. */
  function Folders(w: string): (fs: seq<string>)
    ensures |fs| == |Slashes(w)|
  {
    var ks := Slashes(w);
    SlashesInRange(w, 0);
    seq(|ks|, i requires 0 <= i < |ks| => w[..ks[i] + 1])
  }

  /** Every listed index holds a '/' and lies in `[from, |w|)`, and the
      indices increase strictly, so the folders grow strictly longer. */
  lemma {:induction false} SlashesInRange(w: string, from: nat)
    decreases |w| - from
    ensures forall i :: 0 <= i < |SlashesFrom(w, from)| ==>
      from <= SlashesFrom(w, from)[i] < |w| && w[SlashesFrom(w, from)[i]] == '/'
    ensures forall i, j :: 0 <= i < j < |SlashesFrom(w, from)| ==>
      SlashesFrom(w, from)[i] < SlashesFrom(w, from)[j]
  {
    if from < |w| {
      SlashesInRange(w, from + 1);
    }
  }

  /** Every '/' at `from` or later is listed: no folder is skipped. */
  lemma {:induction false} SlashesComplete(w: string, from: nat, k: nat)
    requires from <= k < |w| && w[k] == '/'
    decreases |w| - from
    ensures k in SlashesFrom(w, from)
  {
    if from < k {
      SlashesComplete(w, from + 1, k);
    }
  }

  /** A path with no '/' from `from` on holds no folders there. */
  lemma {:induction false} NoSlashNoFolders(w: string, from: nat)
    requires forall i :: from <= i < |w| ==> w[i] != '/'
    decreases |w| - from
    ensures SlashesFrom(w, from) == []
  {
    if from < |w| {
      NoSlashNoFolders(w, from + 1);
    }
  }

  /** The folders are exactly the prefixes of `w` that end with '/': each
      folder is one, and each such prefix is a folder. So nothing after the
      last '/' is ever created. */
  lemma FoldersAreSlashPrefixes(w: string)
    ensures forall f <- Folders(w) :: 0 < |f| <= |w| && f == w[..|f|] && f[|f| - 1] == '/'
    ensures forall k :: 0 <= k < |w| && w[k] == '/' ==> w[..k + 1] in Folders(w)
  {
    SlashesInRange(w, 0);
    var fs := Folders(w);
    forall k | 0 <= k < |w| && w[k] == '/'
      ensures w[..k + 1] in fs
    {
      SlashesComplete(w, 0, k);
      var i :| 0 <= i < |Slashes(w)| && Slashes(w)[i] == k;
      assert fs[i] == w[..k + 1];
    }
  }

  /** When `w` ends with '/', its last slash is the last character. */
  lemma {:induction false} LastSlashIsEnd(w: string, from: nat)
    requires from < |w| && w[|w| - 1] == '/'
    decreases |w| - from
    ensures var ks := SlashesFrom(w, from); |ks| > 0 && ks[|ks| - 1] == |w| - 1
  {
    if from < |w| - 1 {
      LastSlashIsEnd(w, from + 1);
    }
  }

  /** With `fixSlashes`, a path without NUL characters is walked whole, and
      its last folder is the whole normalised path: the final component is
      created too. */
  lemma NormalizedPathIsLastFolder(path: string)
    requires |path| > 0
    requires forall i :: 0 <= i < |path| ==> path[i] != '\0'
    ensures var w := WalkedPath(path, true);
      w == Normalize(path) && |Folders(w)| > 0 && Folders(w)[|Folders(w)| - 1] == w
  {
    var n := Normalize(path);
    assert forall i :: 0 <= i < |n| ==> n[i] != '\0' by {
      forall i | 0 <= i < |n|
        ensures n[i] != '\0'
      {
        if i < |path| {
          assert n[i] == n[..|path|][i];
        }
      }
    }
    assert CText(n) == n;
    LastSlashIsEnd(n, 0);
  }

  /** The slashes from `from` on start at the one `wcschr` finds there. */
  lemma {:induction false} SlashesFromFind(w: string, from: nat)
    decreases |w| - from
    ensures var k := Text.Find(w, '/', from);
      SlashesFrom(w, from) == if k == -1 then [] else [k] + SlashesFrom(w, k + 1)
  {
    if from < |w| && w[from] != '/' {
      SlashesFromFind(w, from + 1);
    }
    if Text.Find(w, '/', from) == -1 {
      NoSlashNoFolders(w, from);
    }
  }

  /** The `fixSlashes` step: a copy of the path, `std::replace` of every '\'
      by '/' in place, then a '/' appended unless the copy ends with one. */
  method FixSlashes(path: string) returns (tpath: string)
    requires |path| > 0
    ensures tpath == Normalize(path)
  {
    var t := new char[|path|](i requires 0 <= i < |path| => path[i]);
    assert t[..] == path;
    ReplaceAll(t, '\\', '/');
    tpath := t[..];
    if tpath[|tpath| - 1] != '/' {
      tpath := tpath + "/";
    }
  }

  /** Creating the folder that ends at index `k` of `w` lets the walk go
      on: `CreateDirectory` made it, or it was there already. */
  predicate FolderOk(w: string, k: nat, createDirectory: string -> DirResult) {
    k < |w| && !Fatal(createDirectory(w[..k + 1]))
  }

  /** One step of the walk: when the slashes after the `n`-th are those
      from `end + 1` on, the next one is the one `wcschr` finds there, and
      there is none exactly when `wcschr` finds none. */
  lemma WalkStep(w: string, ks: seq<nat>, n: nat, end: nat)
    requires n < |ks| && ks[n + 1..] == SlashesFrom(w, end + 1)
    ensures var k := Text.Find(w, '/', end + 1);
      if k == -1 then n + 1 == |ks|
      else n + 1 < |ks| && ks[n + 1] == k && ks[n + 2..] == SlashesFrom(w, k + 1)
  {
    SlashesFromFind(w, end + 1);
    var k := Text.Find(w, '/', end + 1);
    if k != -1 {
      assert ks[n + 1..] == [k] + SlashesFrom(w, k + 1);
      assert ks[n + 1..][1..] == ks[n + 2..];
    }
  }

  /** The walk starts at the first slash `wcschr` finds, if any. */
  lemma WalkFirst(w: string)
    ensures var k := Text.Find(w, '/', 0); var ks := Slashes(w);
      if k == -1 then ks == []
      else 0 < |ks| && ks[0] == k && ks[1..] == SlashesFrom(w, k + 1)
  {
    SlashesFromFind(w, 0);
  }

  /** The walk of `CreatePath` over the text `w` of the wide path:
      `wcschr` finds each '/', the prefix up to and including it is copied
      into `folder` and handed to `CreateDirectory`. The answer is true
      exactly when every folder is made or already there; the slashes whose
      folders were tried (`tried`) are the path's slashes in order, up to
      and including the first folder that failed for another reason. */
  method CreateFolders(w: string, createDirectory: string -> DirResult)
    returns (ok: bool, ghost tried: seq<nat>)
    requires forall k <- Slashes(w) :: k + 1 < MaxPath
    ensures ok <==> forall i :: 0 <= i < |Slashes(w)| ==> FolderOk(w, Slashes(w)[i], createDirectory)
    ensures |tried| <= |Slashes(w)| && tried == Slashes(w)[..|tried|]
    ensures forall i :: 0 <= i < |tried| - 1 ==> FolderOk(w, tried[i], createDirectory)
    ensures ok ==> tried == Slashes(w)
    ensures !ok ==> |tried| > 0 && !FolderOk(w, tried[|tried| - 1], createDirectory)
  {
    ghost var ks := Slashes(w);
    var end := Text.Find(w, '/', 0);
    WalkFirst(w);
    ghost var n := 0;
    while end != -1
      invariant -1 <= end < |w|
      invariant n <= |ks|
      invariant end == -1 ==> n == |ks|
      invariant end != -1 ==> n < |ks| && ks[n] == end && ks[n + 1..] == SlashesFrom(w, end + 1)
      invariant forall i :: 0 <= i < n ==> FolderOk(w, ks[i], createDirectory)
      decreases if end < 0 then 0 else |w| - end
    {
      var folder := w[..end + 1];
      var r := createDirectory(folder);
      if r.Failed? && r.lastError != ErrorAlreadyExists {
        assert !FolderOk(w, ks[n], createDirectory);
        return false, ks[..n + 1];
      }
      WalkStep(w, ks, n, end);
      n := n + 1;
      end := Text.Find(w, '/', end + 1);
    }
    return true, ks;
  }

  /** `CreatePath(path, fixSlashes)`: the walk over the path, normalised
      first when `fixSlashes` is set. */
  method CreatePath(path: string, fixSlashes: bool, createDirectory: string -> DirResult)
    returns (ok: bool, ghost tried: seq<nat>)
    requires fixSlashes ==> |path| > 0
    requires forall k <- Slashes(WalkedPath(path, fixSlashes)) :: k + 1 < MaxPath
    ensures var w := WalkedPath(path, fixSlashes); var ks := Slashes(w);
      ok <==> forall i :: 0 <= i < |ks| ==> FolderOk(w, ks[i], createDirectory)
    ensures var w := WalkedPath(path, fixSlashes);
      |tried| <= |Slashes(w)| && tried == Slashes(w)[..|tried|] &&
      (forall i :: 0 <= i < |tried| - 1 ==> FolderOk(w, tried[i], createDirectory)) &&
      (ok ==> tried == Slashes(w)) &&
      (!ok ==> |tried| > 0 && !FolderOk(w, tried[|tried| - 1], createDirectory))
  {
    var wpath: string;
    if fixSlashes {
      wpath := FixSlashes(path);
    } else {
      wpath := path;
    }
    ok, tried := CreateFolders(CText(wpath), createDirectory);
  }
}
