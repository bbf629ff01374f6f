/** The byte layouts the shared-memory client's typed accessors put into the
    region (an x86 Windows build with UNICODE defined): `int` is 4 bytes,
    little-endian two's complement; `bool` and `char` are 1 byte; `TCHAR`
    is a 2-byte UTF-16 code unit, little-endian. */
module ByteCodec {

  newtype byte = b: int | 0 <= b < 0x100
  newtype wchar = c: int | 0 <= c < 0x1_0000

  const IntSize := 4    // sizeof(int)
  const BoolSize := 1   // sizeof(bool)
  const CharSize := 1   // sizeof(char)
  const TCharSize := 2  // sizeof(TCHAR) with UNICODE

  predicate IsInt32(v: int) {
    -0x8000_0000 <= v < 0x8000_0000
  }

  /** The four bytes of an `int` as they lie in memory. */
  function EncodeInt(v: int): (b: seq<byte>)
    requires IsInt32(v)
    ensures |b| == IntSize
  {
    var u := if v < 0 then v + 0x1_0000_0000 else v;
    var q1 := u / 0x100;
    var q2 := q1 / 0x100;
    var q3 := q2 / 0x100;
    [(u % 0x100) as byte, (q1 % 0x100) as byte, (q2 % 0x100) as byte, q3 as byte]
  }

  /** The `int` that four bytes in memory hold. */
  function DecodeInt(b: seq<byte>): (v: int)
    requires |b| == IntSize
    ensures IsInt32(v)
  {
    var u := b[0] as int + 0x100 * (b[1] as int + 0x100 * (b[2] as int + 0x100 * b[3] as int));
    if u < 0x8000_0000 then u else u - 0x1_0000_0000
  }

  /** Reading back the bytes of a written `int` gives that `int`. */
  lemma IntRoundTrip(v: int)
    requires IsInt32(v)
    ensures DecodeInt(EncodeInt(v)) == v
  {
    var u := if v < 0 then v + 0x1_0000_0000 else v;
    var q1 := u / 0x100;
    var q2 := q1 / 0x100;
    var q3 := q2 / 0x100;
    assert u == u % 0x100 + 0x100 * q1;
    assert q1 == q1 % 0x100 + 0x100 * q2;
    assert q2 == q2 % 0x100 + 0x100 * q3;
  }

  /** Every 4-byte pattern is the encoding of the `int` it decodes to. */
  lemma IntBytesRoundTrip(b: seq<byte>)
    requires |b| == IntSize
    ensures EncodeInt(DecodeInt(b)) == b
  {
    var q3 := b[3] as int;
    var q2 := b[2] as int + 0x100 * q3;
    var q1 := b[1] as int + 0x100 * q2;
    var u := b[0] as int + 0x100 * q1;
    assert u / 0x100 == q1 && u % 0x100 == b[0] as int;
    assert q1 / 0x100 == q2 && q1 % 0x100 == b[1] as int;
    assert q2 / 0x100 == q3 && q2 % 0x100 == b[2] as int;
  }

  /** A `bool` is stored as 1 (true) or 0 (false). */
  function EncodeBool(v: bool): (b: seq<byte>)
    ensures |b| == BoolSize
  {
    [if v then 1 else 0]
  }

  /** A stored byte reads as `true` when it is not zero. */
  function DecodeBool(b: seq<byte>): bool
    requires |b| == BoolSize
  {
    b[0] != 0
  }

  lemma BoolRoundTrip(v: bool)
    ensures DecodeBool(EncodeBool(v)) == v
  {
  }

  /** The bytes of a sequence of UTF-16 code units, low byte first. */
  function EncodeWide(s: seq<wchar>): (b: seq<byte>)
    ensures |b| == TCharSize * |s|
  {
    if s == [] then []
    else EncodeWide(s[..|s| - 1]) + [(s[|s| - 1] as int % 0x100) as byte, (s[|s| - 1] as int / 0x100) as byte]
  }

  /** The code units held by an even number of bytes. */
  function DecodeWide(b: seq<byte>): (s: seq<wchar>)
    requires |b| % TCharSize == 0
    ensures |s| == |b| / TCharSize
  {
    if b == [] then []
    else DecodeWide(b[..|b| - 2]) + [(b[|b| - 2] as int + 0x100 * b[|b| - 1] as int) as wchar]
  }

  /** Reading back the bytes of written code units gives those units. */
  lemma {:induction false} WideRoundTrip(s: seq<wchar>)
    ensures DecodeWide(EncodeWide(s)) == s
  {
    if s != [] {
      var b := EncodeWide(s);
      assert b[..|b| - 2] == EncodeWide(s[..|s| - 1]);
      WideRoundTrip(s[..|s| - 1]);
    }
  }

  /** `_tcslen`: the number of code units before the first terminating 0,
      or the whole sequence when it holds no 0. */
  function CLength(s: seq<wchar>): (n: nat)
    ensures n <= |s|
    ensures n < |s| ==> s[n] == 0
    ensures forall i :: 0 <= i < n ==> s[i] != 0
  {
    if s == [] || s[0] == 0 then 0 else 1 + CLength(s[1..])
  }

  /** A sequence of non-zero units followed by a terminator has exactly
      their count as its length. */
  lemma {:induction false} CLengthOfTerminated(w: seq<wchar>)
    requires forall i :: 0 <= i < |w| ==> w[i] != 0
    ensures CLength(w + [0]) == |w|
  {
    if w != [] {
      assert (w + [0])[1..] == w[1..] + [0];
      CLengthOfTerminated(w[1..]);
    }
  }

  /** The UTF-16 units of a string of BMP characters. */
  function Widen(s: string): (w: seq<wchar>)
    requires forall i :: 0 <= i < |s| ==> s[i] as int < 0x1_0000
    ensures |w| == |s|
    ensures forall i :: 0 <= i < |s| ==> w[i] as int == s[i] as int
  {
    seq(|s|, i requires 0 <= i < |s| => s[i] as int as wchar)
  }
}
