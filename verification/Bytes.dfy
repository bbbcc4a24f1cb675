/** Bytes, machine words and the few C library scanners that the object-file code relies on.

    A file is a sequence of bytes.  A byte is a character below 256, so that the literal
    strings of the formats can be written as Dafny strings. */
module Bytes {
  type byte = c: char | c as int < 256
  type bytes = seq<byte>

  datatype Option<+T> = None | Some(value: T)

  const TWO31: nat := 0x8000_0000
  const TWO32: nat := 0x1_0000_0000
  const TWO63: nat := 0x8000_0000_0000_0000
  const TWO64: nat := 0x1_0000_0000_0000_0000

  lemma PrefixStep<T>(s: seq<T>, i: nat)
    requires i < |s|
    ensures s[..i + 1] == s[..i] + [s[i]]
  {
  }

  lemma Regroup<T>(a: seq<T>, b: seq<T>, c: seq<T>)
    ensures (a + b) + c == a + (b + c)
  {
  }

  lemma Regroup5<T>(before: seq<T>, a: seq<T>, b: seq<T>, c: seq<T>, d: seq<T>, e: seq<T>)
    ensures before + a + b + c + d + e == before + (a + b + c + d + e)
  {
    Regroup(before, a, b);
    Regroup(before, a + b, c);
    Regroup(before, a + b + c, d);
    Regroup(before, a + b + c + d, e);
  }

  lemma SliceInFront<T>(a: seq<T>, b: seq<T>, i: nat, j: nat)
    requires i <= j <= |a|
    ensures (a + b)[i..j] == a[i..j]
  {
  }

  lemma SliceBehind<T>(a: seq<T>, b: seq<T>, i: nat, j: nat)
    requires i <= j <= |b|
    ensures (a + b)[|a| + i..|a| + j] == b[i..j]
  {
  }

  /** `n` copies of one byte: what `memset` writes. */
  function Fill(c: byte, n: nat): (r: bytes)
    ensures |r| == n
    ensures forall i :: 0 <= i < n ==> r[i] == c
  {
    seq(n, _ => c)
  }

  // ---------------------------------------------------------------------------------------
  // Pieces one behind the other
  // ---------------------------------------------------------------------------------------

  /** The first `k` pieces of a file, string or table that is built piece by piece. */
  function Concat(parts: seq<bytes>, k: nat): (r: bytes)
    requires k <= |parts|
  {
    if k == 0 then [] else Concat(parts, k - 1) + parts[k - 1]
  }

  lemma ConcatStart(before: bytes, parts: seq<bytes>)
    ensures before + Concat(parts, 0) == before
  {
  }

  lemma ConcatStep(before: bytes, parts: seq<bytes>, k: nat)
    requires k < |parts|
    ensures before + Concat(parts, k + 1) == before + Concat(parts, k) + parts[k]
  {
    Regroup(before, Concat(parts, k), parts[k]);
  }

  lemma {:induction false} ConcatGrows(parts: seq<bytes>, j: nat, k: nat)
    requires j <= k <= |parts|
    ensures Concat(parts, j) <= Concat(parts, k)
  {
    if j < k { ConcatGrows(parts, j, k - 1); }
  }

  /** A piece stands, whole, behind the pieces before it. */
  lemma {:induction false} ConcatSlice(parts: seq<bytes>, i: nat, k: nat)
    requires i < k <= |parts|
    ensures |Concat(parts, i)| + |parts[i]| == |Concat(parts, i + 1)| <= |Concat(parts, k)|
    ensures Concat(parts, k)[|Concat(parts, i)|..|Concat(parts, i + 1)|] == parts[i]
  {
    ConcatGrows(parts, i + 1, k);
    var whole := Concat(parts, i + 1);
    assert Concat(parts, k)[..|whole|] == whole;
    SliceBehind(Concat(parts, i), parts[i], 0, |parts[i]|);
  }

  /** Pieces further on do not matter. */
  lemma {:induction false} ConcatSame(a: seq<bytes>, b: seq<bytes>, k: nat)
    requires k <= |a| && k <= |b| && forall i :: 0 <= i < k ==> a[i] == b[i]
    ensures Concat(a, k) == Concat(b, k)
  {
    if k > 0 { ConcatSame(a, b, k - 1); }
  }

  // ---------------------------------------------------------------------------------------
  // Fixed-width integers
  // ---------------------------------------------------------------------------------------

  /** One more than the largest integer that `n` bytes hold. */
  function Capacity(n: nat): (r: nat)
    ensures r > 0
  {
    if n == 0 then 1 else 256 * Capacity(n - 1)
  }

  lemma WordCapacities()
    ensures Capacity(1) == 256 && Capacity(2) == 0x1_0000
    ensures Capacity(4) == TWO32 && Capacity(8) == TWO64
  {
    assert Capacity(4) == 256 * 256 * Capacity(2);
    assert Capacity(8) == 256 * 256 * Capacity(6) && Capacity(6) == 256 * 256 * Capacity(4);
  }

  /** `v` as `n` bytes, least significant first. */
  function PutLittle(v: nat, n: nat): (r: bytes)
    requires v < Capacity(n)
    ensures |r| == n
  {
    if n == 0 then [] else [(v % 256) as char] + PutLittle(v / 256, n - 1)
  }

  /** `v` as `n` bytes, most significant first. */
  function PutBig(v: nat, n: nat): (r: bytes)
    requires v < Capacity(n)
    ensures |r| == n
  {
    if n == 0 then [] else PutBig(v / 256, n - 1) + [(v % 256) as char]
  }

  function GetLittle(s: bytes): (v: nat)
    ensures v < Capacity(|s|)
  {
    if s == [] then 0 else s[0] as int + 256 * GetLittle(s[1..])
  }

  function GetBig(s: bytes): (v: nat)
    ensures v < Capacity(|s|)
  {
    if s == [] then 0 else GetBig(s[..|s| - 1]) * 256 + s[|s| - 1] as int
  }

  /** The accessors that follow the byte order of a target. */
  function Put(big: bool, v: nat, n: nat): (r: bytes)
    requires v < Capacity(n)
    ensures |r| == n
  {
    if big then PutBig(v, n) else PutLittle(v, n)
  }

  function Get(big: bool, s: bytes): (v: nat)
    ensures v < Capacity(|s|)
  {
    if big then GetBig(s) else GetLittle(s)
  }

  lemma {:induction false} LittleRoundTrip(v: nat, n: nat)
    requires v < Capacity(n)
    ensures GetLittle(PutLittle(v, n)) == v
  {
    if n > 0 {
      LittleRoundTrip(v / 256, n - 1);
      assert PutLittle(v, n)[1..] == PutLittle(v / 256, n - 1);
    }
  }

  lemma {:induction false} BigRoundTrip(v: nat, n: nat)
    requires v < Capacity(n)
    ensures GetBig(PutBig(v, n)) == v
  {
    if n > 0 {
      BigRoundTrip(v / 256, n - 1);
      assert PutBig(v, n)[..n - 1] == PutBig(v / 256, n - 1);
    }
  }

  /** What a word accessor stores it reads back, in either byte order. */
  lemma GetPut(big: bool, v: nat, n: nat)
    requires v < Capacity(n)
    ensures Get(big, Put(big, v, n)) == v
  {
    if big { BigRoundTrip(v, n); } else { LittleRoundTrip(v, n); }
  }

  /** The accessors for 32- and 64-bit words. */
  function Put32(big: bool, v: nat): (r: bytes)
    requires v < TWO32
    ensures |r| == 4
  {
    WordCapacities();
    Put(big, v, 4)
  }

  function Put64(big: bool, v: nat): (r: bytes)
    requires v < TWO64
    ensures |r| == 8
  {
    WordCapacities();
    Put(big, v, 8)
  }

  function Get32(big: bool, s: bytes): (v: nat)
    requires |s| == 4
    ensures v < TWO32
  {
    WordCapacities();
    Get(big, s)
  }

  function Get64(big: bool, s: bytes): (v: nat)
    requires |s| == 8
    ensures v < TWO64
  {
    WordCapacities();
    Get(big, s)
  }

  lemma Word32RoundTrip(big: bool, v: nat)
    requires v < TWO32
    ensures Get32(big, Put32(big, v)) == v
  {
    WordCapacities();
    GetPut(big, v, 4);
  }

  lemma Word64RoundTrip(big: bool, v: nat)
    requires v < TWO64
    ensures Get64(big, Put64(big, v)) == v
  {
    WordCapacities();
    GetPut(big, v, 8);
  }

  // ---------------------------------------------------------------------------------------
  // Searching: memchr and strlen
  // ---------------------------------------------------------------------------------------

  /** The position of the first `c`, or the length when there is none. */
  function IndexOf(s: bytes, c: byte): (i: nat)
    ensures i <= |s|
    ensures forall j :: 0 <= j < i ==> s[j] != c
    ensures i < |s| ==> s[i] == c
  {
    if s == [] || s[0] == c then 0 else 1 + IndexOf(s[1..], c)
  }

  /** What a C string can hold. */
  predicate NulFree(s: bytes) {
    '\0' !in s
  }

  lemma IndexOfUnique(s: bytes, c: byte, k: nat)
    requires k <= |s|
    requires forall j :: 0 <= j < k ==> s[j] != c
    requires k < |s| ==> s[k] == c
    ensures IndexOf(s, c) == k
  {
  }

  /** The C string that starts at the beginning of `s`: everything up to the first NUL, or all
      of `s`, behind which the buffers of this program keep one more NUL. */
  function CString(s: bytes): (r: bytes)
    ensures r <= s && NulFree(r)
  {
    s[..IndexOf(s, '\0')]
  }

  lemma CStringOf(name: bytes, rest: bytes)
    requires NulFree(name)
    ensures CString(name + "\0" + rest) == name
  {
    var s := name + "\0" + rest;
    IndexOfUnique(s, '\0', |name|);
  }

  // ---------------------------------------------------------------------------------------
  // Decimal text: printf, sscanf and strtol
  // ---------------------------------------------------------------------------------------

  function TenTo(k: nat): (r: nat)
    ensures r > 0
  {
    if k == 0 then 1 else 10 * TenTo(k - 1)
  }

  predicate IsDigit(c: byte) {
    '0' <= c <= '9'
  }

  predicate IsSpace(c: byte) {
    c == ' ' || '\t' <= c <= '\r'
  }

  /** What `%lu` prints. */
  function Decimal(n: nat): (r: bytes)
    ensures |r| >= 1
  {
    if n < 10 then [(48 + n) as char] else Decimal(n / 10) + [(48 + n % 10) as char]
  }

  /** The value of a run of digits. */
  function DecimalValue(s: bytes): (v: nat)
    requires forall i :: 0 <= i < |s| ==> IsDigit(s[i])
  {
    if s == [] then 0
    else assert IsDigit(s[|s| - 1]); DecimalValue(s[..|s| - 1]) * 10 + (s[|s| - 1] as int - 48)
  }

  lemma {:induction false} DecimalDigits(n: nat)
    ensures forall i :: 0 <= i < |Decimal(n)| ==> IsDigit(Decimal(n)[i])
    ensures DecimalValue(Decimal(n)) == n
  {
    if n >= 10 {
      DecimalDigits(n / 10);
      assert Decimal(n)[..|Decimal(n)| - 1] == Decimal(n / 10);
    }
  }

  /** A number prints in at most `k` digits exactly when it is below ten to the `k`. */
  lemma {:induction false} DecimalLength(n: nat, k: nat)
    requires k >= 1
    ensures |Decimal(n)| <= k <==> n < TenTo(k)
  {
    if k == 1 {
      assert TenTo(1) == 10 * TenTo(0);
    } else if n >= 10 {
      DecimalLength(n / 10, k - 1);
    } else {
      assert TenTo(k) >= 10 by { assert TenTo(k) == 10 * TenTo(k - 1); }
    }
  }

  /** How many digits stand at the front of `s`. */
  function DigitSpan(s: bytes): (k: nat)
    ensures k <= |s|
    ensures forall i :: 0 <= i < k ==> IsDigit(s[i])
    ensures k < |s| ==> !IsDigit(s[k])
  {
    if s == [] || !IsDigit(s[0]) then 0 else 1 + DigitSpan(s[1..])
  }

  function SpaceSpan(s: bytes): (k: nat)
    ensures k <= |s|
    ensures k < |s| ==> !IsSpace(s[k])
  {
    if s == [] || !IsSpace(s[0]) then 0 else 1 + SpaceSpan(s[1..])
  }

  /** What the scanners of the C library see: the number, its sign, and where it ends. */
  datatype Scan = Scan(found: bool, negative: bool, magnitude: nat, end: nat)

  /** White space, an optional sign and a run of digits. */
  function ScanNumber(s: bytes): (r: Scan)
    ensures r.end <= |s|
  {
    var ws := SpaceSpan(s);
    var sign := if ws < |s| && (s[ws] == '-' || s[ws] == '+') then 1 else 0;
    var k := DigitSpan(s[ws + sign..]);
    if k == 0 then Scan(false, false, 0, 0)
    else Scan(true, sign == 1 && s[ws] == '-',
              DecimalValue(s[ws + sign..][..k]), ws + sign + k)
  }

  /** `sscanf (s, "%" SCNu64, &v)`: a negative number wraps, too large a number saturates. */
  function ScanUnsigned(s: bytes): (r: Option<nat>)
    ensures r.Some? ==> r.value < TWO64
  {
    var n := ScanNumber(CString(s));
    if !n.found then None
    else if n.magnitude >= TWO64 then Some(TWO64 - 1)
    else if n.negative && n.magnitude > 0 then Some(TWO64 - n.magnitude)
    else Some(n.magnitude)
  }

  /** Scanning printed decimal text gives the number back when no digit follows it. */
  lemma ScanDecimal(n: nat, rest: bytes)
    requires rest == [] || !IsDigit(rest[0])
    ensures ScanNumber(Decimal(n) + rest) == Scan(true, false, n, |Decimal(n)|)
  {
    DecimalDigits(n);
    var d := Decimal(n);
    var s := d + rest;
    assert IsDigit(d[0]) && s[0] == d[0];
    assert s[0..] == s;
    SpanOf(d, rest);
    assert s[..|d|] == d;
  }

  lemma {:induction false} SpanOf(d: bytes, rest: bytes)
    requires forall i :: 0 <= i < |d| ==> IsDigit(d[i])
    requires rest == [] || !IsDigit(rest[0])
    ensures DigitSpan(d + rest) == |d|
  {
    if d != [] {
      assert (d + rest)[1..] == d[1..] + rest;
      SpanOf(d[1..], rest);
    } else {
      assert d + rest == rest;
    }
  }
}
