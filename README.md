# Just: shared memory, serialisers, path creation and URL splitting in Dafny

This project models the core of *Just*, a header-only C++ utility library
for Windows. It covers four parts:

- **Shared memory.** The shared-memory client (`SharedMemoryClient`, named
  `Client` in the amalgamated header) is modelled as a Dafny class with its
  three fields: handle, mapped view and size. It attaches to a named,
  OS-backed block of memory by creating it, opening it, or trying create
  first and then open. It copies bytes into and out of the block, checking
  bounds first. The operating system is a `Namespace` object that maps names
  to shared byte arrays. Two clients attached to one name hold the same
  array, so a write through one is seen by a read through the other.
  Whether each Windows call succeeds is decided by boolean parameters. The
  C++ `throw`s are a distinct `Threw` outcome.
- **Serialisers.** `From::Array`, `From::Iterable`, `From::Map` and their
  `ToString` counterparts are loops that append to a string. They are
  proved against two layouts:
  - the delimiter only between elements (`Join.JoinBetween`);
  - the delimiter after every element, then one character cut off
    (`Join.TrimmedJoin`).

  Lemmas relate the two layouts, covering one-character, multi-character
  and empty delimiters and the empty container.
- **`CreatePath`.** It normalises the slashes, calls `CreateDirectory` on
  every prefix that ends at a '/', and stops at the first failure other
  than "already exists". `CreateDirectory` is a function parameter.
- **HTTP `Send(url, …)` and `SendForm`.** Only the part that does not touch
  the network is modelled:
  - splitting the URL into host and action;
  - rendering the headers;
  - building the form body.

Memory layout assumed: a Windows build with `UNICODE`.
- `TCHAR` is a 2-byte UTF-16 unit.
- `int` is 4 bytes, little-endian, two's complement.
- `bool` and `char` are 1 byte each.

The code creates first and connects second in `ConnectOrCreate`
(`SharedMemory.h:173`). Its doc comment says it connects first. The model
follows the code.

Modules:
- `Text`: `find` and `rfind` of one character.
- `ByteCodec`: byte layouts of `int`, `bool` and UTF-16 text.
- `SharedMemory`: the OS namespace, the client and the smoke test.
- `Join`: the two serialisation layouts and their lemmas.
- `StringFrom` and `ToString`: the serialiser loops.
- `Files`: `CreatePath`.
- `Http`: the URL split, `Send` and `SendForm`.

## Model

| member | source | states |
|---|---|---|
| `Text.Find` | Just/Source/Http/HttpRequests.h:264 | the index of the first `c` at or after `from`, with no `c` between `from` and it; -1 exactly when there is none |
| `Text.RFind` | Just/Source/Http/HttpRequests.h:269 | the index of the last `c`, with no `c` after it; -1 exactly when there is none |
| `ByteCodec.EncodeInt` | Just/Source/SharedMemory/SharedMemory.h:209-212 | an `int` occupies exactly `sizeof(int)` = 4 bytes |
| `ByteCodec.DecodeInt` | Just/Source/SharedMemory/SharedMemory.h:298-301 | any 4 bytes read as an `int` give a 32-bit value |
| `ByteCodec.IntRoundTrip` | Just/Source/SharedMemory/SharedMemory.h:298-301 | the bytes of a written `int`, read back as an `int`, give that `int` |
| `ByteCodec.IntBytesRoundTrip` | Just/Source/SharedMemory/SharedMemory.h:298-301 | every 4-byte pattern is the layout of the `int` it reads as |
| `ByteCodec.BoolRoundTrip` | Just/Source/SharedMemory/SharedMemory.h:315-318 | a written `bool` reads back as itself |
| `ByteCodec.WideRoundTrip` | Just/Source/SharedMemory/SharedMemory.h:349-352 | the bytes of written UTF-16 units read back as those units |
| `ByteCodec.CLength` | Just/Source/SharedMemory/SharedMemory.h:262 | `_tcslen`: the units before it are non-zero, and the unit at it is the terminator (or the end) |
| `ByteCodec.CLengthOfTerminated` | Just/Source/SharedMemory/SharedMemory.h:262 | non-zero units followed by a terminator have exactly their count as `_tcslen` |
| `ByteCodec.Widen` | Just/Just.cpp:123 | a wide literal has one UTF-16 unit per character, with the same code |
| `SharedMemory.Splice` | Just/Source/SharedMemory/SharedMemory.h:194 | `CopyMemory` into the region: the bytes in `[at, at+len)` become the data, and every other byte keeps its value |
| `SharedMemory.SpliceThenSlice` | Just/Source/SharedMemory/SharedMemory.h:283 | reading the bytes just copied in returns them |
| `SharedMemory.CopyTargetAsWritten` | Just/Source/SharedMemory/SharedMemory.h:194 | as written, `_Buffer + offset` on a `TCHAR` pointer starts the copy exactly `offset * 2` bytes in, past `offset` whenever the offset is positive |
| `SharedMemory.DefaultLengthNeedsOffsetZero` | Just/Source/SharedMemory/SharedMemory.h:192-193 | a `dataLen` of 0 stands for the whole size, so with any positive offset the bounds check always fails |
| `SharedMemory.ScaledOffsetOverrunsRegion` | Just/Source/SharedMemory/SharedMemory.h:193-194 | as written, 40 bytes at offset 60 pass the 100-byte check and are then copied to bytes 120..159 |
| `SharedMemory.ScaledOffsetOverrunsAtEnd` | Just/Source/SharedMemory/SharedMemory.h:193-194 | as written, every accepted access at a non-zero offset that ends at the end of the region overruns it |
| `SharedMemory.WriteStrLengthAsWritten` | Just/Source/SharedMemory/SharedMemory.h:262 | as written, the length WriteStr passes is 0 exactly when the string is empty |
| `SharedMemory.EmptyWriteStrOverreads` | Just/Source/SharedMemory/SharedMemory.h:262 | as written, writing `L""` copies the whole region, which is more than the string's 2 bytes |
| `SharedMemory.Namespace.constructor` | Just/Source/SharedMemory/SharedMemory.h:70-76 | no named objects exist at first |
| `SharedMemory.Namespace.CreateFileMapping` | Just/Source/SharedMemory/SharedMemory.h:70-76 | for a name in use, returns that object and changes nothing; otherwise creates a fresh, zero-filled object of `size` bytes and leaves every other object alone; a size of 0 or less, or an OS refusal, gives NULL |
| `SharedMemory.Namespace.OpenFileMapping` | Just/Source/SharedMemory/SharedMemory.h:127-130 | succeeds exactly when the OS allows it and the name exists; the handle is that object |
| `SharedMemory.Namespace.MapViewOfFile` | Just/Source/SharedMemory/SharedMemory.h:86-90 | the view is the object's own array; it is NULL exactly when the OS refuses or `size` is outside `[0, object length]` |
| `SharedMemory.Client.constructor` | Just/Source/SharedMemory/SharedMemory.h:37 | a new client is not valid and its size is 0 |
| `SharedMemory.Client.IsValid` | Just/Source/SharedMemory/SharedMemory.h:364 | valid exactly when the view is held, and exactly when the handle is held |
| `SharedMemory.Client.GetSize` | Just/Source/SharedMemory/SharedMemory.h:376 | 0 when not valid; otherwise a size within the mapped view |
| `SharedMemory.Client.Close` | Just/Source/SharedMemory/SharedMemory.h:387-394 | resets handle, view and size, leaving the client not valid; on a client that holds nothing it changes nothing (idempotent) |
| `SharedMemory.Client.CreateNew` | Just/Source/SharedMemory/SharedMemory.h:60-102 | on a valid client, throws "already connected" and touches nothing; otherwise returns true exactly when create and map succeed. A new name gets a fresh zero-filled object and no other object changes. On true, the client holds that object with the requested size. On false, it is not valid and has size 0 (a failed map closes it) |
| `SharedMemory.Client.Connect` | Just/Source/SharedMemory/SharedMemory.h:117-156 | on a valid client, throws "already connected" and touches nothing; otherwise returns true exactly when the name exists and open and map succeed. On true, the client holds that object with the requested size. On false, it is not valid and has size 0 |
| `SharedMemory.Client.ConnectOrCreate` | Just/Source/SharedMemory/SharedMemory.h:171-174 | CreateNew first, and Connect only when CreateNew returned false; the result is the disjunction of the two success conditions, and a throw propagates |
| `SharedMemory.Client.CheckedWrite` | Just/Source/SharedMemory/SharedMemory.h:189-195 | corrected: throws when not valid, then throws when `offset + len` exceeds the size, leaving the region unchanged in both cases; otherwise bytes `[offset, offset+len)` become the data and all others are kept |
| `SharedMemory.Client.WriteBuffer` | Just/Source/SharedMemory/SharedMemory.h:189-195 | corrected: as CheckedWrite, with a `dataLen` of 0 meaning the whole size, so a default-length write at a non-zero offset always throws |
| `SharedMemory.Client.ReadBuffer` | Just/Source/SharedMemory/SharedMemory.h:278-284 | corrected: the same throws as WriteBuffer; otherwise returns exactly the region's bytes `[offset, offset+len)` |
| `SharedMemory.Client.WriteInt` | Just/Source/SharedMemory/SharedMemory.h:209-212 | corrected: writes the 4 bytes of the `int` at `offset` and nothing else, or throws with the region unchanged |
| `SharedMemory.Client.WriteBool` | Just/Source/SharedMemory/SharedMemory.h:226-229 | corrected: writes the 1 byte of the `bool` at `offset` and nothing else, or throws with the region unchanged |
| `SharedMemory.Client.WriteChar` | Just/Source/SharedMemory/SharedMemory.h:243-246 | corrected: writes the `char` byte at `offset` and nothing else, or throws with the region unchanged |
| `SharedMemory.Client.WriteStr` | Just/Source/SharedMemory/SharedMemory.h:260-263 | corrected: writes the UTF-16 bytes of the units before the terminator, with no terminator, at `offset`; or throws with the region unchanged |
| `SharedMemory.Client.ReadInt` | Just/Source/SharedMemory/SharedMemory.h:298-301 | corrected: the `int` held by the 4 bytes at `offset`, or the ReadBuffer throws |
| `SharedMemory.Client.ReadBool` | Just/Source/SharedMemory/SharedMemory.h:315-318 | corrected: true exactly when the byte at `offset` is non-zero, or the ReadBuffer throws |
| `SharedMemory.Client.ReadChar` | Just/Source/SharedMemory/SharedMemory.h:332-335 | corrected: the byte at `offset`, or the ReadBuffer throws |
| `SharedMemory.Client.ReadStr` | Just/Source/SharedMemory/SharedMemory.h:349-352 | `maxLen * 2` bytes (the whole size when 0) always from offset 0, or the ReadBuffer throws |
| `SharedMemory.IntWriteThenRead` | Just/Source/SharedMemory/SharedMemory.h:194 | the bytes of an `int` copied into a region read back as that `int` |
| `SharedMemory.SharedIntRoundTrip` | Just/Just.cpp:96-103 | an `int` written through one client is read back through another client attached to the same name |
| `SharedMemory.WideThenTerminator` | Just/Just.cpp:120-127 | a string's bytes followed by two zero bytes read back as the string and its terminator |
| `SharedMemory.SmokeSameName` | Just/Just.cpp:75-86 | "test" is created, then joined by Connect and by ConnectOrCreate (all true); the first two clients share one zero-filled 100-byte region |
| `SharedMemory.SmokeOtherNames` | Just/Just.cpp:88-94 | ConnectOrCreate on the new name "test2" returns true; Connect on the missing name "test3" returns false and leaves its client invalid; existing objects are kept |
| `SharedMemory.SmokeAttach` | Just/Just.cpp:69-94 | the five attach results are true, true, true, true, false; sm1 and sm2 are valid and sm5 is not |
| `SharedMemory.SmokeScalars` | Just/Just.cpp:96-119 | 10132, 10 and true written through sm1 are read back as such through sm2; bytes past the first `int` are untouched |
| `SharedMemory.SmokeString` | Just/Just.cpp:120-127 | `L"hello world"` written through sm1 is read back through sm2 as 12 units: the text and its terminator |
| `SharedMemory.SmokeTest` | Just/Just.cpp:67-127 | the whole shared-memory smoke test gives the results it checks for |
| `Join.RenderAll` | Just/Source/Strings/From/Arrays.h:39 | one rendering per element, in order |
| `Join.RenderEntries` | Just/Source/Strings/From/Maps.h:37 | each entry becomes key, equal sign and value, in iteration order |
| `Join.Substr` | Just/Source/Strings/From/Iterable.h:40 | `substr(pos, count)`: the characters from `pos`, at most `count` of them, and fewer only at the end of the string |
| `Join.TrimmedDropsLast` | Just/Source/Strings/From/Iterable.h:39-40 | `substr(0, size()-1)` drops exactly the last character of non-empty content; `""` stays `""` because `size()-1` wraps to npos |
| `Join.JoinBetweenSplit` | Just/Source/Strings/From/Arrays.h:37-42 | element `i` follows the join of the elements before it and one delimiter |
| `Join.AppendEachIsJoinPlusDelim` | Just/Source/Strings/From/Iterable.h:35-38 | for a non-empty container, the untrimmed content is the between-only join plus one trailing delimiter |
| `Join.JoinBetweenLength` | Just/Source/ToString/Arrays.h:33-38 | for n ≥ 1, the length is the sum of the rendered lengths plus `(n-1)*|delimiter|` |
| `Join.AppendEachLength` | Just/Source/ToString/Lists.h:32-35 | the untrimmed content's length is the sum of the rendered lengths plus `n*|delimiter|` |
| `Join.EmptyJoins` | Just/Source/Strings/From/Iterable.h:39-40 | an empty container gives `""` in both layouts |
| `Join.TrimmedJoinIsPrefix` | Just/Source/ToString/Lists.h:37 | the result is a prefix of the untrimmed content, one character shorter when that content is non-empty |
| `Join.TrimmedJoinIsJoinPlusPartialDelim` | Just/Source/Strings/From/Iterable.h:37-40 | with a non-empty delimiter, the result is the between-only join followed by the delimiter minus its last character |
| `Join.OneCharDelimiterAgrees` | Just/Source/Strings/From/Iterable.h:37-40 | with a one-character delimiter, the trimmed layout equals the between-only layout |
| `Join.EmptyDelimiterDropsElementChar` | Just/Source/Strings/From/Iterable.h:37-40 | with an empty delimiter, the last character of the last element's text is dropped |
| `Join.ArrayExample` | Just/Just.cpp:59-61 | `Array` of `{1,2,3}` with "," is "1,2,3" |
| `Join.TrimmedExamples` | Just/Just.cpp:51-65 | `Iterable` of `{1,2,3}` is "1,2,3", and `Map` of `{1:a,2:b,3:c}` is "1:a,2:b,3:c" |
| `Join.MultiCharDelimiterLeavesComma` | Just/Source/Strings/From/Maps.h:37-40 | with ", " the trimmed layout of `["1","2"]` is "1, 2," while the between-only layout is "1, 2" |
| `StringFrom.Array` | Just/Source/Strings/From/Arrays.h:33-43 | `arrSize <= 0` gives `""`; otherwise the first `arrSize` renderings in index order, with the delimiter only between them (proved with loop invariants) |
| `StringFrom.Iterable` | Just/Source/Strings/From/Iterable.h:31-41 | every rendering followed by the delimiter, in iteration order, then one trailing character cut off |
| `StringFrom.Map` | Just/Source/Strings/From/Maps.h:31-41 | key, equal sign, value and delimiter per entry, in iteration order, then one trailing character cut off |
| `ToString.ArrayToString` | Just/Source/ToString/Arrays.h:29-39 | as `Array`, with each element rendered through `ToString` |
| `ToString.ListToString` | Just/Source/ToString/Lists.h:28-38 | as `Iterable`, with each element rendered through `ToString` |
| `ToString.MapToString` | Just/Source/Strings/ToString/Maps.h:28-38 | as `Map`, with both key and value rendered through `ToString` |
| `Files.Replaced` | Just/Source/Files/Folders.h:38 | `std::replace`: every `from` becomes `to`, and every other character is kept |
| `Files.ReplaceAll` | Just/Source/Files/Folders.h:38 | the in-place `std::replace` leaves exactly `Replaced` of the old contents |
| `Files.Normalize` | Just/Source/Files/Folders.h:37-39 | no '\\' is left; the result ends with '/'; a '/' is appended only when the path did not already end with a slash |
| `Files.NormalizeIdempotent` | Just/Source/Files/Folders.h:39 | normalising twice is the same as normalising once |
| `Files.FixSlashes` | Just/Source/Files/Folders.h:35-41 | the in-place replace and conditional append give the normalised path |
| `Files.CText` | Just/Source/Files/Folders.h:54 | what `wcschr` sees through `c_str()`: the longest NUL-free prefix |
| `Files.Folders` | Just/Source/Files/Folders.h:54-69 | one folder per '/' of the path |
| `Files.SlashesInRange` | Just/Source/Files/Folders.h:54-68 | every folder ends at a '/' of the path, in strictly increasing order |
| `Files.SlashesComplete` | Just/Source/Files/Folders.h:54-68 | no '/' is skipped |
| `Files.FoldersAreSlashPrefixes` | Just/Source/Files/Folders.h:54-69 | the folders are exactly the prefixes that end with '/', so no component after the last '/' is created |
| `Files.NoSlashNoFolders` | Just/Source/Files/Folders.h:57 | a path without '/' has no folders |
| `Files.LastSlashIsEnd` | Just/Source/Files/Folders.h:39 | in a path ending with '/', the last folder ends at the last character |
| `Files.NormalizedPathIsLastFolder` | Just/Source/Files/Folders.h:35-41 | with `fixSlashes`, a NUL-free path is walked whole, and its last folder is the whole normalised path |
| `Files.SlashesFromFind` | Just/Source/Files/Folders.h:68 | the folders from a position on start at the '/' that `wcschr` finds there |
| `Files.WalkFirst` | Just/Source/Files/Folders.h:54 | the walk starts at the first '/' `wcschr` finds, and there are no folders when it finds none |
| `Files.WalkStep` | Just/Source/Files/Folders.h:68 | each `wcschr(++end, '/')` finds the next folder's slash, and finds none exactly after the last one |
| `Files.CreateFolders` | Just/Source/Files/Folders.h:48-72 | true exactly when every folder is created or already exists; folders are tried shortest first, and the walk stops right after the first other failure (proved with loop invariants) |
| `Files.CreatePath` | Just/Source/Files/Folders.h:29-73 | CreateFolders over the path, normalised first when `fixSlashes` is set |
| `Http.SplitUrl` | Just/Source/Http/HttpRequests.h:263-270 | the host never contains '/'; the action starts with '/' and is either "/" or a suffix of the URL |
| `Http.Send` | Just/Source/Http/HttpRequests.h:255-277 | passes on the split host and action, the method, content and port unchanged, and the headers as "name:value" lines joined by a newline |
| `Http.SendForm` | Just/Source/Http/HttpRequests.h:294-303 | the only header is `Content-Type:application/x-www-form-urlencoded`; the body is the "key=value" pairs joined by '&' |
| `Http.OneHeaderLine` | Just/Source/Http/HttpRequests.h:299-300 | a single header renders as one "name:value" line with no newline |
| `Http.NoSlashIsAllHost` | Just/Source/Http/HttpRequests.h:265-266 | a URL without '/' is all host, with action "/" |
| `Http.GoogleExample` | Just/Just.cpp:33 | "google.com" splits into host "google.com" and action "/" |
| `Http.HttpUrlSplit` | Just/Source/Http/HttpRequests.h:263-270 | "http://" + h + a splits back into h and a ("/" when a is empty), for h non-empty without '/' and a empty or starting with '/' |
| `Http.PlainUrlSplitRejoins` | Just/Source/Http/HttpRequests.h:263-270 | for a URL that does not start with "http:" and contains '/', host + action is the URL |
| `Http.HttpsNotRecognised` | Just/Source/Http/HttpRequests.h:263 | "https://example.com/x" is not recognised as a scheme: it splits into host "https:" and action "//example.com/x" |

`Just/JustAll.h` holds copies of the following, and the rows above apply to
them too:
- the client (`JustAll.h:1291-1667`);
- `From::Array`, `From::Iterable` and `From::Map` (`JustAll.h:101-211`);
- `CreatePath` (`JustAll.h:363-407`);
- `Send` and `SendForm` (`JustAll.h:1133-1181`).

The `ToString` serialisers have no copy there. The copies differ from the
separate headers only in the names they use:
- the client class is `Client` instead of `SharedMemoryClient`, and so are
  its constructor and destructor (`JustAll.h:1309, 1314`);
- the client converts the path with `String::To::LpcwStr`
  (`JustAll.h:1339, 1396`), where `SharedMemory.h:67, 124` call
  `StringConvert::StringToLPCWSTR`;
- `CreatePath` widens the path with `Just::String::To::Wide`
  (`JustAll.h:374, 379`), where `Folders.h:40, 45` call
  `Just::Misc::StringToWide`;
- header and form rendering call `From::Map` (`JustAll.h:1151, 1179`),
  where `HttpRequests.h:273, 301` call `ParseMap`.

## Left out

- The destructor `~SharedMemoryClient` only calls `Close` (`SharedMemory.h:42-45`). Dafny has no destructors, and `Close` is modelled.
- `UnmapViewOfFile` and `CloseHandle` are not modelled: once created, a named object stays in the namespace. Handle reference counting is an OS detail.
- The size of a created object is the size that was requested. Windows may round it up; that is an OS detail.
- There is no synchronisation between processes, and concurrent access is not modelled.
- `SharedMemory.Client.WriteBuffer`: requires a non-negative `offset` and `dataLen`. The source checks only the upper bound, and `offset + dataLen` can overflow `int`. Both are undefined behaviour, not modelled logic.
- `SharedMemory.Client.ReadBuffer`: the same non-negative `offset` and `dataLen` precondition as WriteBuffer.
- `SharedMemory.Client.CheckedWrite`: the same non-negative precondition. It also requires the source data to hold at least the copied length, which the C++ caller must guarantee.
- `SharedMemory.Client.ReadStr`: returns the bytes read. It does not write them into the caller's `TCHAR*` buffer, whose size is not modelled.
- `SharedMemory.Client.WriteChar`: takes a `char` as an unsigned byte. Signedness does not change the byte copied.
- `SharedMemory.Client.ReadBool`: reads a byte as "not zero". A byte other than 0 or 1 is undefined behaviour for a C++ `bool`.
- Path conversion (`StringToLPCWSTR`, `To::Wide`, `StringToWide`) wraps `MultiByteToWideChar` and is taken as the identity on characters. Names and paths are opaque strings.
- Element rendering (`Any`, the `ToString` overloads, `operator<<`) is foreign formatting. It appears as function parameters.
- The iteration order of `std::map` and `std::unordered_map` is taken as given: maps are sequences of entries in that order.
- `Just::String::ParseMap`, called by `HttpRequests.h:273, 301`, is not part of this model. It is modelled as `From::Map`, which the amalgamated header calls at those points.
- `Http.Send`: the port is a natural number, and the 16-bit `USHORT` range is not enforced. The WinHttp exchange, the response and the user agent are not modelled, and neither are the `Get`/`Post`/`Put`/`Delete` wrappers.
- `Files.CreatePath`: requires every folder, with its terminator, to fit in the `MAX_PATH` buffer. A longer one makes `wcsncpy_s` call the invalid-parameter handler. It also requires a non-empty path when `fixSlashes` is set, because `Folders.h:39` reads `*(tpath.end() - 1)` and an empty path makes that undefined behaviour. The folders tried are a ghost result: the source does not return them.
- `Files.CreateFolders`: the same `MAX_PATH` precondition as CreatePath.
- `Files.Normalize`: requires a non-empty path, for the same undefined behaviour at `Folders.h:39`.
- `Files.FixSlashes`: the same non-empty path precondition as Normalize.
- File reading and writing, process execution (`_popen`), DLL loading and the header-merging script are thin wrappers over I/O or foreign calls.

## Findings

| source | as written | input that shows it | evidently intended | confidence | as-written member | corrected member |
|---|---|---|---|---|---|---|
| Just/Source/SharedMemory/SharedMemory.h:194 | `_Buffer + offset` on an `LPCTSTR` (2-byte `TCHAR` under `UNICODE`) starts the copy at byte `2*offset`, while line 193 checks `offset + dataLen` in bytes; the same holds for ReadBuffer at line 283 | 100-byte region, `WriteBuffer(data, 40, 60)`: the check passes and bytes 120..159 are written | the copy starts `offset` bytes in, so an accepted access stays in the region | not executed; high | `SharedMemory.CopyTargetAsWritten`, `SharedMemory.ScaledOffsetOverrunsRegion`, `SharedMemory.ScaledOffsetOverrunsAtEnd` | `SharedMemory.Client.CheckedWrite`, `SharedMemory.Client.WriteBuffer`, `SharedMemory.Client.ReadBuffer` |
| Just/Source/SharedMemory/SharedMemory.h:262 | `WriteStr(L"")` passes length 0, which WriteBuffer reads as "the whole size" (line 192), so the whole region is copied from a 2-byte string | 100-byte region, `WriteStr(L"", 0)`: 100 bytes are read from a 2-byte source | an empty string writes no bytes | not executed; high | `SharedMemory.EmptyWriteStrOverreads` | `SharedMemory.Client.WriteStr` |
