/** Fields of section contents that relocations change in place. */
module AoutField {
  import opened Bytes

  // ---------------------------------------------------------------------------------------
  // Powers of two
  // ---------------------------------------------------------------------------------------

  function TwoTo(n: nat): (r: nat)
    ensures r > 0
  {
    if n == 0 then 1 else 2 * TwoTo(n - 1)
  }

  lemma {:induction false} TwoToSum(a: nat, b: nat)
    ensures TwoTo(a + b) == TwoTo(a) * TwoTo(b)
  {
    if a > 0 {
      TwoToSum(a - 1, b);
      Doubled(TwoTo(a - 1), TwoTo(b));
    }
  }

  lemma Doubled(x: int, y: int)
    ensures 2 * (x * y) == (2 * x) * y
  {
  }

  lemma {:induction false} TwoToBytes(n: nat)
    ensures TwoTo(8 * n) == Capacity(n)
  {
    if n > 0 {
      TwoToBytes(n - 1);
      TwoToSum(8, 8 * (n - 1));
      TwoTo8();
    }
  }

  lemma TwoTo8()
    ensures TwoTo(8) == 256
  {
    TwoToSum(4, 4);
  }

  lemma TwoToWords()
    ensures TwoTo(32) == TWO32 && TwoTo(64) == TWO64
  {
    TwoToBytes(4);
    TwoToBytes(8);
    WordCapacities();
  }

  // ---------------------------------------------------------------------------------------
  // Remainders
  // ---------------------------------------------------------------------------------------

  /** The remainder and the quotient, kept apart from the solver's own arithmetic. */
  function Rem(x: int, b: int): (r: nat)
    requires b > 0
    ensures r < b
  {
    x % b
  }

  function Quot(x: int, b: int): (q: int)
    requires b > 0
  {
    x / b
  }

  /** A `bfd_vma`. */
  function Wrap(x: int): (r: nat)
    ensures r < TWO64
  {
    Rem(x, TWO64)
  }

  /** `align_power` */
  function AlignPower(x: nat, bits: nat): (r: nat) {
    var up := Wrap(x + TwoTo(bits) - 1);
    RemAtMost(up, TwoTo(bits));
    up - Rem(up, TwoTo(bits))
  }

  lemma RemAtMost(x: nat, b: nat)
    requires b > 0
    ensures Rem(x, b) <= x
  {
  }

  lemma DivRem(x: int, b: int)
    requires b > 0
    ensures x == Quot(x, b) * b + Rem(x, b)
  {
  }

  /** The remainder is the one number below `b` that differs by a multiple of `b`. */
  lemma ModUnique(x: int, b: int, q: int, r: int)
    requires b > 0 && x == q * b + r && 0 <= r < b
    ensures Rem(x, b) == r && Quot(x, b) == q
  {
    hide Rem, Quot;
    DivRem(x, b);
    Distribute(Quot(x, b), q, b);
    SmallMultiple(Quot(x, b) - q, b);
  }

  lemma Distribute(p: int, q: int, b: int)
    ensures p * b - q * b == (p - q) * b
  {
  }

  lemma Collect(p: int, q: int, b: int)
    ensures p * b + q * b == (p + q) * b
  {
  }

  lemma SmallMultiple(k: int, b: int)
    requires b > 0 && -b < k * b < b
    ensures k == 0
  {
    if k >= 1 { LargeMultiple(k, b); }
    if k <= -1 { LargeMultiple(-k, b); }
  }

  lemma LargeMultiple(k: int, b: int)
    requires b > 0 && k >= 1
    ensures k * b >= b
  {
    assert k * b == (k - 1) * b + b;
  }

  lemma AddMultiple(x: int, q: int, b: int)
    requires b > 0
    ensures Rem(x + q * b, b) == Rem(x, b)
  {
    hide Rem, Quot;
    DivRem(x, b);
    Collect(Quot(x, b), q, b);
    ModUnique(x + q * b, b, Quot(x, b) + q, Rem(x, b));
  }

  /** Remainders are equal exactly when the difference is a multiple. */
  lemma SameMod(x: int, y: int, b: int)
    requires b > 0
    ensures Rem(x, b) == Rem(y, b) <==> Rem(x - y, b) == 0
  {
    hide Rem, Quot;
    DivRem(x, b);
    DivRem(y, b);
    DivRem(x - y, b);
    if Rem(x - y, b) == 0 {
      AddMultiple(y, Quot(x - y, b), b);
    }
    if Rem(x, b) == Rem(y, b) {
      Distribute(Quot(x, b), Quot(y, b), b);
      ModUnique(x - y, b, Quot(x, b) - Quot(y, b), 0);
    }
  }

  /** A remainder by a multiple of `b` keeps the remainder by `b`. */
  lemma ModOfMod(x: int, b: nat, k: nat, m: nat)
    requires b > 0 && k > 0 && m == b * k && m > 0
    ensures Rem(Rem(x, m), b) == Rem(x, b)
  {
    LowSum(0, x, b, k, m);
  }

  /** A summand may be taken modulo any multiple. */
  lemma LowSum(a: int, v: int, b: nat, k: nat, m: nat)
    requires b > 0 && k > 0 && m == b * k && m > 0
    ensures Rem(a + Rem(v, m), b) == Rem(a + v, b)
  {
    hide Rem, Quot;
    DivRem(v, m);
    var q := Quot(v, m);
    Reassociate(q, b, k);
    AddMultiple(a + Rem(v, m), q * k, b);
  }

  lemma Reassociate(q: int, b: int, k: int)
    ensures q * (b * k) == (q * k) * b
  {
  }

  lemma LowOfLow(l: int, v: int, b: int)
    requires b > 0
    ensures Rem(Rem(l, b) + v, b) == Rem(l + v, b)
  {
    hide Rem, Quot;
    DivRem(l, b);
    AddMultiple(Rem(l, b) + v, Quot(l, b), b);
  }

  lemma HighKept(x: nat, low: nat, b: nat)
    requires b > 0 && low < b
    ensures x - Rem(x, b) >= 0 && Rem(x - Rem(x, b) + low, b) == low
  {
    DivRem(x, b);
    ModUnique(x - Rem(x, b) + low, b, Quot(x, b), low);
  }

  lemma AddedTwice(x: nat, y: nat, v1: int, v2: int, v: int, b: nat)
    requires b > 0 && y == x - Rem(x, b) + Rem(Rem(x, b) + v1, b)
    ensures y - Rem(y, b) + Rem(Rem(y, b) + v2, b) == x - Rem(x, b) + Rem(Rem(x, b) + v, b)
            <==> Rem(v1 + v2 - v, b) == 0
  {
    hide Rem, Quot;
    var a := Rem(x, b);
    HighKept(x, Rem(a + v1, b), b);
    LowOfLow(a + v1, v2, b);
    SameMod(a + v1 + v2, a + v, b);
    assert a + v1 + v2 - (a + v) == v1 + v2 - v;
  }

  /** The bits above a shift. */
  lemma ShiftedLow(u: int, s: nat, b: nat, m: nat)
    requires s > 0 && b > 0 && m == s * b && m > 0
    ensures Rem(Quot(u, s), b) == Quot(Rem(u, m), s)
  {
    hide Rem, Quot;
    var q, r := Quot(u, m), Rem(u, m);
    DivRem(u, m);
    var r1, r0 := Quot(r, s), Rem(r, s);
    DivRem(r, s);
    Reassociate(q, s, b);
    Collect(q * b, r1, s);
    ModUnique(u, s, q * b + r1, r0);
    QuotientBelow(r, s, b);
    ModUnique(q * b + r1, b, q, r1);
  }

  lemma QuotientBelow(x: nat, s: nat, b: nat)
    requires s > 0 && x < s * b
    ensures 0 <= Quot(x, s) < b
  {
    hide Rem, Quot;
    DivRem(x, s);
    var q := Quot(x, s);
    if q >= b { Ordered(b, q, s); }
    if q < 0 { Ordered(q + 1, 0, s); Collect(q, 1, s); }
  }

  lemma Ordered(p: int, q: int, s: nat)
    requires p <= q
    ensures p * s <= q * s
  {
    assert (q - p) * s >= 0;
    Distribute(q, p, s);
  }

  // ---------------------------------------------------------------------------------------
  // One field
  // ---------------------------------------------------------------------------------------

  /** What `_bfd_relocate_contents` does to one field: `size` bytes at `at`, of which the low
      `bits` bits take part.  The value is shifted right first.  In-place relocations add it to
      what the field holds. */
  datatype Edit = Edit(at: nat, size: nat, bits: nat, shift: nat, inplace: bool, value: int)

  predicate ValidEdit(e: Edit) {
    e.bits <= 8 * e.size && e.size <= 8 && e.shift + e.bits <= 64
  }

  /** The new value of a field that holds `x`, in the wrapping 64-bit arithmetic of `bfd_vma`. */
  function Stored(e: Edit, x: nat): (y: nat)
    requires ValidEdit(e) && x < Capacity(e.size)
    ensures y < Capacity(e.size)
  {
    var unit := TwoTo(e.bits);
    var kept := if e.inplace then Rem(x, unit) else 0;
    var low := Rem(kept + Quot(Rem(e.value, TWO64), TwoTo(e.shift)), unit);
    LowPart(x, e.bits, e.size, low);
    x - Rem(x, unit) + low
  }

  lemma LowPart(x: nat, bits: nat, size: nat, low: nat)
    requires bits <= 8 * size && x < Capacity(size) && low < TwoTo(bits)
    ensures 0 <= x - Rem(x, TwoTo(bits)) + low < Capacity(size)
  {
    hide Rem, TwoTo, Capacity;
    TwoToBytes(size);
    TwoToSum(bits, 8 * size - bits);
    BelowMultiple(x, TwoTo(bits), TwoTo(8 * size - bits), low);
  }

  lemma BelowMultiple(x: nat, b: nat, k: nat, low: nat)
    requires b > 0 && x < b * k && low < b
    ensures 0 <= x - Rem(x, b) + low < b * k
  {
    hide Rem, Quot;
    DivRem(x, b);
    QuotientBelow(x, b, k);
    Ordered(0, Quot(x, b), b);
    Ordered(Quot(x, b) + 1, k, b);
    Collect(Quot(x, b), 1, b);
  }

  /** The word size is a multiple of a field's range. */
  lemma WordMultiple(n: nat) returns (k: nat)
    requires n <= 64
    ensures k > 0 && TWO64 == TwoTo(n) * k
  {
    TwoToWords();
    TwoToSum(n, 64 - n);
    k := TwoTo(64 - n);
  }

  /** Adding in place stores the sum, whatever the value wraps to. */
  lemma StoredSum(e: Edit, x: nat)
    requires ValidEdit(e) && e.inplace && e.shift == 0 && x < Capacity(e.size)
    ensures var unit := TwoTo(e.bits);
            Stored(e, x) == x - Rem(x, unit) + Rem(Rem(x, unit) + e.value, unit)
  {
    hide Rem, Quot, Capacity;
    var k := WordMultiple(e.bits);
    NoShift(Rem(e.value, TWO64));
    LowSum(Rem(x, TwoTo(e.bits)), e.value, TwoTo(e.bits), k, TWO64);
  }

  lemma NoShift(x: int)
    ensures TwoTo(0) == 1 && Quot(x, 1) == x
  {
  }

  /** Two values added one after the other are one value added exactly when the sums agree in the
      bits that take part. */
  lemma InPlaceTwice(e1: Edit, e2: Edit, e: Edit, x: nat)
    requires ValidEdit(e1) && ValidEdit(e2) && ValidEdit(e) && x < Capacity(e.size)
    requires e1.inplace && e2.inplace && e.inplace && e1.shift == e2.shift == e.shift == 0
    requires e1.size == e2.size == e.size && e1.bits == e2.bits == e.bits
    ensures Stored(e2, Stored(e1, x)) == Stored(e, x) <==> Rem(e1.value + e2.value - e.value, TwoTo(e.bits)) == 0
  {
    hide Stored, TwoTo, Capacity, Rem;
    var b, y := TwoTo(e.bits), Stored(e1, x);
    StoredSum(e1, x);
    StoredSum(e2, y);
    StoredSum(e, x);
    AddedTwice(x, y, e1.value, e2.value, e.value, b);
  }

  /** A field that is replaced depends only on the bits that reach it. */
  lemma StoredShifted(e: Edit, x: nat)
    requires ValidEdit(e) && !e.inplace && x < Capacity(e.size)
    ensures var unit := TwoTo(e.bits);
            Stored(e, x) == x - Rem(x, unit) + Quot(Rem(e.value, TwoTo(e.shift + e.bits)), TwoTo(e.shift))
  {
    hide Rem, Quot, Capacity, TwoTo;
    var s, b := TwoTo(e.shift), TwoTo(e.bits);
    TwoToSum(e.shift, e.bits);
    ShiftedLow(Rem(e.value, TWO64), s, b, TwoTo(e.shift + e.bits));
    var k := WordMultiple(e.shift + e.bits);
    ModOfMod(e.value, TwoTo(e.shift + e.bits), k, TWO64);
  }

  /** What adding `d` to a value adds above the shift: the low bits of the value decide on the carry. */
  function Carried(value: int, d: int, shift: nat): int {
    Quot(Rem(value, TwoTo(shift)) + d, TwoTo(shift))
  }

  /** Adding `d` to a value changes the bits that get into a field. */
  predicate Reaches(value: int, d: int, shift: nat, bits: nat) {
    Rem(Carried(value, d, shift), TwoTo(bits)) != 0
  }

  /** Two values replace a field by the same exactly when their difference does not reach it. */
  lemma ReplacedSame(e1: Edit, e2: Edit, x: nat)
    requires ValidEdit(e1) && ValidEdit(e2) && x < Capacity(e1.size) && !e1.inplace && !e2.inplace
    requires e1.size == e2.size && e1.bits == e2.bits && e1.shift == e2.shift
    ensures Stored(e1, x) == Stored(e2, x) <==> !Reaches(e2.value, e1.value - e2.value, e1.shift, e1.bits)
  {
    hide Stored, Rem, Quot, TwoTo, Capacity;
    var s, b := TwoTo(e1.shift), TwoTo(e1.bits);
    StoredShifted(e1, x);
    StoredShifted(e2, x);
    TwoToSum(e1.shift, e1.bits);
    ShiftedLow(e1.value, s, b, TwoTo(e1.shift + e1.bits));
    ShiftedLow(e2.value, s, b, TwoTo(e1.shift + e1.bits));
    SameMod(Quot(e1.value, s), Quot(e2.value, s), b);
    DivRem(e2.value, s);
    QuotPlus(Rem(e2.value, s) + (e1.value - e2.value), Quot(e2.value, s), s);
  }

  /** A multiple comes out of a quotient. */
  lemma QuotPlus(y: int, q: int, s: int)
    requires s > 0
    ensures Quot(y + q * s, s) == Quot(y, s) + q
  {
    hide Rem, Quot;
    DivRem(y, s);
    Collect(Quot(y, s), q, s);
    ModUnique(y + q * s, s, Quot(y, s) + q, Rem(y, s));
  }

  /** What is a multiple of the shift reaches a field exactly when it is not a multiple of all that the
      field can hold; no value makes a difference. */
  lemma MultipleReaches(value: int, d: int, shift: nat, bits: nat)
    requires Rem(d, TwoTo(shift)) == 0
    ensures Reaches(value, d, shift, bits) <==> Rem(d, TwoTo(shift + bits)) != 0
  {
    hide Rem, Quot, TwoTo;
    var s, b := TwoTo(shift), TwoTo(bits);
    var q, r := Quot(d, s), Rem(value, s);
    DivRem(d, s);
    QuotPlus(r, q, s);
    ModUnique(r, s, 0, r);
    assert Carried(value, d, shift) == q;
    TwoToSum(shift, bits);
    ScaledRem(q, s, b);
  }

  lemma ScaledRem(q: int, s: nat, b: nat)
    requires s > 0 && b > 0 && s * b > 0
    ensures Rem(q, b) == 0 <==> Rem(q * s, s * b) == 0
  {
    hide Rem, Quot;
    if Rem(q, b) == 0 {
      DivRem(q, b);
      Scaled(Quot(q, b), s, b);
      ModUnique(q * s, s * b, Quot(q, b), 0);
    }
    if Rem(q * s, s * b) == 0 {
      DivRem(q * s, s * b);
      var k := Quot(q * s, s * b);
      Scaled(k, s, b);
      Distribute(q, k * b, s);
      SmallMultiple(q - k * b, s);
      ModUnique(q, b, k, 0);
    }
  }

  lemma Scaled(k: int, s: int, b: int)
    ensures k * b * s == k * (s * b)
  {
  }

  /** Whole words beyond the field do not reach it. */
  lemma WordsNeverReach(value: int, d: int, t: int, shift: nat, bits: nat)
    requires shift + bits <= 32 && Rem(t, TWO32) == 0
    ensures Reaches(value, d + t, shift, bits) <==> Reaches(value, d, shift, bits)
  {
    hide Rem, Quot, TwoTo;
    var s, b, w := TwoTo(shift), TwoTo(bits), TwoTo(32 - shift - bits);
    TwoToWords();
    TwoToSum(shift, 32 - shift);
    TwoToSum(bits, 32 - shift - bits);
    DivRem(t, TWO32);
    var k := Quot(t, TWO32);
    Reassociate(k, s, b * w);
    QuotPlus(Rem(value, s) + d, k * (b * w), s);
    Reassociate(k, b, w);
    AddMultiple(Carried(value, d, shift), k * w, b);
  }

  function Apply(big: bool, c: bytes, e: Edit): (r: bytes)
    requires ValidEdit(e) && e.at + e.size <= |c|
    ensures |r| == |c|
  {
    c[..e.at] + Put(big, Stored(e, Get(big, c[e.at..e.at + e.size])), e.size) + c[e.at + e.size..]
  }

  /** The accesses that `_bfd_relocate_contents` makes: read the field, then write it. */
  method ApplyInPlace(big: bool, contents: array<byte>, e: Edit)
    requires ValidEdit(e) && e.at + e.size <= contents.Length
    modifies contents
    ensures contents[..] == Apply(big, old(contents[..]), e)
  {
    hide Put, Get, Stored, Overwritten;
    var was := contents[..];
    var field := Put(big, Stored(e, Get(big, was[e.at..e.at + e.size])), e.size);
    for i := 0 to e.size
      invariant contents[..] == Overwritten(was, e.at, field, i)
    {
      contents[e.at + i] := field[i];
      OverwriteStep(was, e.at, field, i);
    }
    OverwriteAll(was, e.at, field);
  }

  lemma OverwriteAll(c: bytes, at: nat, field: bytes)
    requires at + |field| <= |c|
    ensures Overwritten(c, at, field, |field|) == c[..at] + field + c[at + |field|..]
  {
  }

  /** `c` with the first `i` bytes of `field` written at `at`. */
  ghost function Overwritten(c: bytes, at: nat, field: bytes, i: nat): (r: bytes)
    requires i <= |field| && at + |field| <= |c|
    ensures |r| == |c|
    ensures i == 0 ==> r == c
  {
    c[..at] + field[..i] + c[at + i..]
  }

  lemma OverwriteStep(c: bytes, at: nat, field: bytes, i: nat)
    requires i < |field| && at + |field| <= |c|
    ensures Overwritten(c, at, field, i + 1) == Overwritten(c, at, field, i)[at + i := field[i]]
  {
  }

  /** Adding nothing changes nothing. */
  lemma AddNothing(big: bool, c: bytes, e: Edit)
    requires ValidEdit(e) && e.at + e.size <= |c| && e.inplace && Rem(e.value, TWO64) == 0
    ensures Apply(big, c, e) == c
  {
    hide Put, Get, Rem, Quot, TwoTo, Capacity;
    var field := c[e.at..e.at + e.size];
    var x := Get(big, field);
    NothingStored(e, x);
    PutGet(big, field);
    assert c == c[..e.at] + field + c[e.at + e.size..];
  }

  lemma NothingStored(e: Edit, x: nat)
    requires ValidEdit(e) && e.inplace && x < Capacity(e.size) && Rem(e.value, TWO64) == 0
    ensures Stored(e, x) == x
  {
    hide Rem, Quot, TwoTo, Capacity;
    var unit := TwoTo(e.bits);
    ModUnique(0, TwoTo(e.shift), 0, 0);
    ModUnique(Rem(x, unit), unit, 0, Rem(x, unit));
  }

  lemma PutGet(big: bool, s: bytes)
    ensures Put(big, Get(big, s), |s|) == s
  {
    hide Put, Get, Capacity;
    var x := Get(big, s);
    GetPut(big, x, |s|);
    GetInjective(big, Put(big, x, |s|), s);
  }

  // ---------------------------------------------------------------------------------------
  // Many fields
  // ---------------------------------------------------------------------------------------

  predicate EditsFit(es: seq<Edit>, lo: nat, hi: nat) {
    forall k :: 0 <= k < |es| ==> ValidEdit(es[k]) && lo <= es[k].at && es[k].at + es[k].size <= hi
  }

  predicate Apart(a: Edit, b: Edit) {
    a.at + a.size <= b.at || b.at + b.size <= a.at
  }

  predicate Disjoint(es: seq<Edit>) {
    forall j, k :: 0 <= j < k < |es| ==> Apart(es[j], es[k])
  }

  /** The first `n` edits, one after the other. */
  function ApplyAll(big: bool, c: bytes, es: seq<Edit>, n: nat): (r: bytes)
    requires n <= |es| && EditsFit(es, 0, |c|)
    ensures |r| == |c|
  {
    if n == 0 then c else Apply(big, ApplyAll(big, c, es, n - 1), es[n - 1])
  }

  lemma ApplyNext(big: bool, c: bytes, es: seq<Edit>, n: nat)
    requires n < |es| && EditsFit(es, 0, |c|)
    ensures ApplyAll(big, c, es, 0) == c
    ensures ApplyAll(big, c, es, n + 1) == Apply(big, ApplyAll(big, c, es, n), es[n])
  {
  }

  function FieldOf(big: bool, c: bytes, e: Edit): (x: nat)
    requires e.at + e.size <= |c|
    ensures x < Capacity(e.size)
  {
    Get(big, c[e.at..e.at + e.size])
  }

  /** A stretch that an edit does not touch. */
  lemma ApplyOutside(big: bool, c: bytes, e: Edit, lo: nat, hi: nat)
    requires ValidEdit(e) && e.at + e.size <= |c| && lo <= hi <= |c|
    requires hi <= e.at || e.at + e.size <= lo
    ensures Apply(big, c, e)[lo..hi] == c[lo..hi]
  {
    hide Put, Get, Stored;
    Replaced(c, e.at, Put(big, Stored(e, Get(big, c[e.at..e.at + e.size])), e.size), lo, hi);
  }

  lemma Replaced(c: bytes, at: nat, field: bytes, lo: nat, hi: nat)
    requires at + |field| <= |c| && lo <= hi <= |c| && (hi <= at || at + |field| <= lo)
    ensures (c[..at] + field + c[at + |field|..])[lo..hi] == c[lo..hi]
  {
  }

  lemma ApplyField(big: bool, c: bytes, e: Edit)
    requires ValidEdit(e) && e.at + e.size <= |c|
    ensures FieldOf(big, Apply(big, c, e), e) == Stored(e, FieldOf(big, c, e))
  {
    hide Put, Get, Stored;
    var y := Stored(e, FieldOf(big, c, e));
    var field := Put(big, y, e.size);
    assert Apply(big, c, e)[e.at..e.at + e.size] == field;
    GetPut(big, y, e.size);
  }

  /** A stretch that none of the edits touches. */
  lemma {:induction false} AllOutside(big: bool, c: bytes, es: seq<Edit>, n: nat, lo: nat, hi: nat)
    requires n <= |es| && EditsFit(es, 0, |c|) && lo <= hi <= |c|
    requires forall k :: 0 <= k < n ==> hi <= es[k].at || es[k].at + es[k].size <= lo
    ensures ApplyAll(big, c, es, n)[lo..hi] == c[lo..hi]
  {
    hide Apply;
    if n > 0 {
      AllOutside(big, c, es, n - 1, lo, hi);
      ApplyOutside(big, ApplyAll(big, c, es, n - 1), es[n - 1], lo, hi);
    }
  }

  /** Edits of disjoint fields do not disturb each other: each field holds what its own edit makes
      of what it held at first. */
  lemma {:induction false} FieldAfter(big: bool, c: bytes, es: seq<Edit>, n: nat, k: nat)
    requires k < n <= |es| && EditsFit(es, 0, |c|) && Disjoint(es)
    ensures FieldOf(big, ApplyAll(big, c, es, n), es[k]) == Stored(es[k], FieldOf(big, c, es[k]))
  {
    hide Apply, Stored, Get;
    var before, e := ApplyAll(big, c, es, n - 1), es[k];
    if k == n - 1 {
      AllOutside(big, c, es, n - 1, e.at, e.at + e.size);
      ApplyField(big, before, e);
    } else {
      FieldAfter(big, c, es, n - 1, k);
      assert Apart(e, es[n - 1]);
      ApplyOutside(big, before, es[n - 1], e.at, e.at + e.size);
    }
  }

  // ---------------------------------------------------------------------------------------
  // One section inside another
  // ---------------------------------------------------------------------------------------

  /** `es` moved `off` bytes further on. */
  predicate Moved(es: seq<Edit>, off: nat, own: seq<Edit>) {
    |own| == |es| && forall k :: 0 <= k < |es| ==> own[k].at == es[k].at + off && own[k].size == es[k].size
  }

  /** Bytes that belong to no field. */
  predicate Untouched(es: seq<Edit>, i: nat) {
    forall k :: 0 <= k < |es| ==> i < es[k].at || es[k].at + es[k].size <= i
  }

  /** Two contents that differ in fields only. */
  predicate SameAround(es: seq<Edit>, a: bytes, b: bytes) {
    |a| == |b| && forall i :: 0 <= i < |a| && Untouched(es, i) ==> a[i] == b[i]
  }

  /** The fields of a stretch of a larger section, edited there among other edits, end up like the
      fields of the stretch edited on its own exactly when each field does. */
  lemma StretchExact(big: bool, c: bytes, es: seq<Edit>, all: bytes, off: nat, front: seq<Edit>, own: seq<Edit>,
                     back: seq<Edit>)
    requires EditsFit(es, 0, |c|) && Disjoint(es) && off + |c| <= |all| && Moved(es, off, own)
    requires EditsFit(front, 0, off) && EditsFit(own, 0, |all|) && EditsFit(back, off + |c|, |all|)
    requires Disjoint(front + own + back)
    requires SameAround(es, c, all[off..off + |c|])
    ensures EditsFit(front + own + back, 0, |all|)
    ensures ApplyAll(big, all, front + own + back, |front + own + back|)[off..off + |c|] == ApplyAll(big, c, es, |es|)
            <==> forall k :: 0 <= k < |es| ==>
                   Stored(own[k], FieldOf(big, all, own[k])) == Stored(es[k], FieldOf(big, c, es[k]))
  {
    hide Stored, ApplyAll, FieldOf, Disjoint;
    var together := front + own + back;
    TogetherFit(front, own, back, off, |c|, |all|);
    var x, y := ApplyAll(big, all, together, |together|), ApplyAll(big, c, es, |es|);
    forall k | 0 <= k < |es|
      ensures x[off + es[k].at..off + es[k].at + es[k].size] == y[es[k].at..es[k].at + es[k].size]
              <==> Stored(own[k], FieldOf(big, all, own[k])) == Stored(es[k], FieldOf(big, c, es[k]))
    {
      assert together[|front| + k] == own[k];
      FieldAfter(big, all, together, |together|, |front| + k);
      FieldAfter(big, c, es, |es|, k);
      SameFields(big, x, own[k], y, es[k]);
    }
    forall i | 0 <= i < |c| && Untouched(es, i)
      ensures x[off + i] == y[i]
    {
      AloneOutside(big, c, es, i);
      AmongOutside(big, all, front, own, back, es, off, |c|, i);
      assert all[off..off + |c|][i] == all[off + i];
    }
    AllEqual(es, x[off..off + |c|], y, x, off);
  }

  lemma TogetherFit(front: seq<Edit>, own: seq<Edit>, back: seq<Edit>, off: nat, n: nat, total: nat)
    requires EditsFit(front, 0, off) && EditsFit(own, 0, total) && EditsFit(back, off + n, total) && off + n <= total
    ensures EditsFit(front + own + back, 0, total)
  {
  }

  lemma SameFields(big: bool, x: bytes, e: Edit, y: bytes, f: Edit)
    requires e.size == f.size && e.at + e.size <= |x| && f.at + f.size <= |y|
    ensures x[e.at..e.at + e.size] == y[f.at..f.at + f.size] <==> FieldOf(big, x, e) == FieldOf(big, y, f)
  {
    GetInjective(big, x[e.at..e.at + e.size], y[f.at..f.at + f.size]);
  }

  lemma GetInjective(big: bool, a: bytes, b: bytes)
    requires |a| == |b|
    ensures Get(big, a) == Get(big, b) ==> a == b
  {
    if big { BigInjective(a, b); } else { LittleInjective(a, b); }
  }

  lemma {:induction false} BigInjective(a: bytes, b: bytes)
    requires |a| == |b|
    ensures GetBig(a) == GetBig(b) ==> a == b
  {
    if a != [] {
      var n := |a| - 1;
      BigInjective(a[..n], b[..n]);
      assert a == a[..n] + [a[n]] && b == b[..n] + [b[n]];
    }
  }

  lemma {:induction false} LittleInjective(a: bytes, b: bytes)
    requires |a| == |b|
    ensures GetLittle(a) == GetLittle(b) ==> a == b
  {
    if a != [] {
      LittleInjective(a[1..], b[1..]);
      assert a == [a[0]] + a[1..] && b == [b[0]] + b[1..];
    }
  }

  lemma AloneOutside(big: bool, c: bytes, es: seq<Edit>, i: nat)
    requires EditsFit(es, 0, |c|) && i < |c| && Untouched(es, i)
    ensures ApplyAll(big, c, es, |es|)[i] == c[i]
  {
    hide ApplyAll;
    AllOutside(big, c, es, |es|, i, i + 1);
    assert ApplyAll(big, c, es, |es|)[i..i + 1][0] == c[i..i + 1][0];
  }

  lemma AmongOutside(big: bool, all: bytes, front: seq<Edit>, own: seq<Edit>, back: seq<Edit>, es: seq<Edit>, off: nat,
                     n: nat, i: nat)
    requires off + n <= |all| && Moved(es, off, own) && i < n && Untouched(es, i)
    requires EditsFit(front, 0, off) && EditsFit(own, 0, |all|) && EditsFit(back, off + n, |all|)
    requires EditsFit(front + own + back, 0, |all|)
    ensures ApplyAll(big, all, front + own + back, |front + own + back|)[off + i] == all[off + i]
  {
    hide ApplyAll;
    var together := front + own + back;
    forall k | 0 <= k < |together|
      ensures off + i < together[k].at || together[k].at + together[k].size <= off + i
    {
      if k < |front| {
        assert together[k] == front[k];
      } else if k < |front| + |own| {
        assert together[k] == own[k - |front|];
        assert own[k - |front|].at == es[k - |front|].at + off;
      } else {
        assert together[k] == back[k - |front| - |own|];
      }
    }
    AloneOutside(big, all, together, off + i);
  }

  /** Contents are equal if and only if the fields are, when everything else is. */
  lemma AllEqual(es: seq<Edit>, a: bytes, b: bytes, x: bytes, off: nat)
    requires |a| == |b| && EditsFit(es, 0, |b|) && off + |a| <= |x| && a == x[off..off + |a|]
    requires forall i :: 0 <= i < |b| && Untouched(es, i) ==> x[off + i] == b[i]
    ensures a == b <==> forall k :: 0 <= k < |es| ==>
              x[off + es[k].at..off + es[k].at + es[k].size] == b[es[k].at..es[k].at + es[k].size]
  {
    forall k | 0 <= k < |es|
      ensures x[off + es[k].at..off + es[k].at + es[k].size] == a[es[k].at..es[k].at + es[k].size]
    {
    }
    if forall k :: 0 <= k < |es| ==>
         x[off + es[k].at..off + es[k].at + es[k].size] == b[es[k].at..es[k].at + es[k].size] {
      forall i | 0 <= i < |b|
        ensures a[i] == b[i]
      {
        if !Untouched(es, i) {
          var k :| 0 <= k < |es| && es[k].at <= i < es[k].at + es[k].size;
          var j := i - es[k].at;
          assert b[es[k].at..es[k].at + es[k].size][j] == b[i];
          assert a[es[k].at..es[k].at + es[k].size][j] == a[i];
        }
      }
    }
  }
}
