/** Header-file brackets in the symbols of an a.out file, and the checksum by which the linker
    recognises a header that it has seen before. */
module AoutStabs {
  import opened Bytes
  import opened AoutField
  import opened AoutTypes

  /** A symbol; its name stands for its place in a string table. */
  datatype Nlist = Nlist(name: bytes, kind: nat, other: nat, desc: nat, value: int)

  predicate Opens(s: Nlist) { s.kind == N_BINCL }

  predicate Closes(s: Nlist) { s.kind == N_EINCL }

  predicate Plain(s: Nlist) { !Opens(s) && !Closes(s) }

  // ---------------------------------------------------------------------------------------
  // The checksum of a string
  // ---------------------------------------------------------------------------------------

  /** The value of a character of plain type, which is signed. */
  function CharValue(c: byte): int {
    if c as int < 128 then c as int else c as int - 256
  }

  /** Where the digits that start at `i` end. */
  function DigitsEnd(s: bytes, i: nat): (j: nat)
    requires i <= |s|
    ensures i <= j <= |s|
    ensures forall k :: i <= k < j ==> IsDigit(s[k])
    ensures j < |s| ==> !IsDigit(s[j])
    decreases |s| - i
  {
    if i < |s| && IsDigit(s[i]) then DigitsEnd(s, i + 1) else i
  }

  /** The sum that the linker forms of a name from position `i` on: all characters except the
      digits directly behind an opening parenthesis. */
  function NameSum(s: bytes, i: nat): int
    requires i <= |s|
    decreases |s| - i
  {
    if i == |s| then 0
    else CharValue(s[i]) + NameSum(s, if s[i] == '(' then DigitsEnd(s, i + 1) else i + 1)
  }

  /** The name without those digits. */
  function Numberless(s: bytes, i: nat): bytes
    requires i <= |s|
    decreases |s| - i
  {
    if i == |s| then []
    else [s[i]] + Numberless(s, if s[i] == '(' then DigitsEnd(s, i + 1) else i + 1)
  }

  function CharSum(s: bytes): int {
    if s == [] then 0 else CharValue(s[0]) + CharSum(s[1..])
  }

  /** The sum depends on nothing but the name without its file numbers. */
  lemma {:induction false} SumOfNumberless(s: bytes, i: nat)
    requires i <= |s|
    ensures NameSum(s, i) == CharSum(Numberless(s, i))
    decreases |s| - i
  {
    if i < |s| {
      var next := if s[i] == '(' then DigitsEnd(s, i + 1) else i + 1;
      SumOfNumberless(s, next);
      assert Numberless(s, i)[1..] == Numberless(s, next);
    }
  }

  /** The name with each file number replaced by another. */
  function Renumbered(s: bytes, i: nat, f: bytes -> bytes): bytes
    requires i <= |s|
    decreases |s| - i
  {
    if i == |s| then []
    else if s[i] == '(' then
      var j := DigitsEnd(s, i + 1);
      ['('] + f(s[i + 1..j]) + Renumbered(s, j, f)
    else [s[i]] + Renumbered(s, i + 1, f)
  }

  predicate AllDigits(s: bytes) {
    forall k :: 0 <= k < |s| ==> IsDigit(s[k])
  }

  /** Renumbering changes file numbers only. */
  lemma {:induction false} RenumberedNumberless(s: bytes, i: nat, f: bytes -> bytes)
    requires i <= |s| && forall d: bytes :: AllDigits(f(d))
    ensures Numberless(Renumbered(s, i, f), 0) == Numberless(s, i)
    decreases |s| - i
  {
    hide Numberless;
    if i == |s| {
      NothingNumberless(s);
    } else if s[i] == '(' {
      var j := DigitsEnd(s, i + 1);
      RenumberedNumberless(s, j, f);
      RenumberedStart(s, j, f);
      BehindParenthesis(f(s[i + 1..j]), Renumbered(s, j, f));
      NumberlessStep(s, i);
    } else {
      RenumberedNumberless(s, i + 1, f);
      var rest := Renumbered(s, i + 1, f);
      BehindOther(s[i], rest);
      NumberlessStep(s, i);
    }
  }

  lemma BehindOther(c: byte, rest: bytes)
    requires c != '('
    ensures Numberless([c] + rest, 0) == [c] + Numberless(rest, 0)
  {
    NumberlessSuffix([c] + rest, 1, rest, 0);
  }

  lemma NothingNumberless(s: bytes)
    ensures Numberless(s, |s|) == [] && Numberless([], 0) == []
  {
  }

  lemma NumberlessStep(s: bytes, i: nat)
    requires i < |s|
    ensures Numberless(s, i) == [s[i]] + Numberless(s, if s[i] == '(' then DigitsEnd(s, i + 1) else i + 1)
  {
  }

  lemma BehindParenthesis(digits: bytes, rest: bytes)
    requires AllDigits(digits) && (rest != [] ==> !IsDigit(rest[0]))
    ensures Numberless(['('] + digits + rest, 0) == ['('] + Numberless(rest, 0)
  {
    var t := ['('] + digits + rest;
    forall k | 1 <= k < 1 + |digits|
      ensures IsDigit(t[k])
    {
      assert t[k] == digits[k - 1];
    }
    DigitsEndAt(t, 1, 1 + |digits|);
    NumberlessSuffix(t, 1 + |digits|, rest, 0);
  }

  /** Behind a number the renumbered name goes on with something that is no digit. */
  lemma RenumberedStart(s: bytes, j: nat, f: bytes -> bytes)
    requires j <= |s| && (j < |s| ==> !IsDigit(s[j]))
    ensures var r := Renumbered(s, j, f); r != [] ==> !IsDigit(r[0])
  {
  }

  lemma {:induction false} DigitsEndAt(t: bytes, i: nat, j: nat)
    requires i <= j <= |t| && (forall k :: i <= k < j ==> IsDigit(t[k])) && (j < |t| ==> !IsDigit(t[j]))
    ensures DigitsEnd(t, i) == j
    decreases j - i
  {
    if i < j { DigitsEndAt(t, i + 1, j); }
  }

  /** What is left of a name depends on its rest only. */
  lemma {:induction false} NumberlessSuffix(t: bytes, off: nat, rest: bytes, i: nat)
    requires off + |rest| == |t| && t[off..] == rest && i <= |rest|
    ensures Numberless(t, off + i) == Numberless(rest, i)
    decreases |rest| - i
  {
    hide Numberless, DigitsEnd;
    if i < |rest| {
      assert t[off + i] == t[off..][i] == rest[i];
      NumberlessStep(t, off + i);
      NumberlessStep(rest, i);
      if rest[i] == '(' {
        DigitsEndSuffix(t, off, rest, i + 1);
        NumberlessSuffix(t, off, rest, DigitsEnd(rest, i + 1));
      } else {
        NumberlessSuffix(t, off, rest, i + 1);
      }
    } else {
      NothingNumberless(t);
      NothingNumberless(rest);
    }
  }

  lemma DigitsEndSuffix(t: bytes, off: nat, rest: bytes, i: nat)
    requires off + |rest| == |t| && t[off..] == rest && i <= |rest|
    ensures DigitsEnd(t, off + i) == off + DigitsEnd(rest, i)
  {
    var j := DigitsEnd(rest, i);
    hide DigitsEnd;
    forall k | off + i <= k < off + j
      ensures IsDigit(t[k])
    {
      assert t[k] == t[off..][k - off];
    }
    if j < |rest| { assert t[off + j] == t[off..][j]; }
    DigitsEndAt(t, off + i, off + j);
  }

  // ---------------------------------------------------------------------------------------
  // The checksum of a header
  // ---------------------------------------------------------------------------------------

  /** The position of the symbol that closes the bracket which is open `nest` levels further out,
      seen from position `i`; the number of symbols if there is none. */
  function Scan(syms: seq<Nlist>, i: nat, nest: nat): (e: nat)
    requires i <= |syms|
    ensures i <= e <= |syms| && (e < |syms| ==> Closes(syms[e]))
    decreases |syms| - i
  {
    if i == |syms| then i
    else if Closes(syms[i]) then if nest == 0 then i else Scan(syms, i + 1, nest - 1)
    else if Opens(syms[i]) then Scan(syms, i + 1, nest + 1)
    else Scan(syms, i + 1, nest)
  }

  /** The sum over the symbols of a header, those of nested headers left out. */
  function HeaderSum(syms: seq<Nlist>, i: nat, nest: nat): int
    requires i <= |syms|
    decreases |syms| - i
  {
    if i == |syms| then 0
    else if Closes(syms[i]) then if nest == 0 then 0 else HeaderSum(syms, i + 1, nest - 1)
    else if Opens(syms[i]) then HeaderSum(syms, i + 1, nest + 1)
    else (if nest == 0 then NameSum(syms[i].name, 0) else 0) + HeaderSum(syms, i + 1, nest)
  }

  /** The names of a header itself, without file numbers. */
  function OuterNames(syms: seq<Nlist>, i: nat, nest: nat): seq<bytes>
    requires i <= |syms|
    decreases |syms| - i
  {
    if i == |syms| then []
    else if Closes(syms[i]) then if nest == 0 then [] else OuterNames(syms, i + 1, nest - 1)
    else if Opens(syms[i]) then OuterNames(syms, i + 1, nest + 1)
    else (if nest == 0 then [Numberless(syms[i].name, 0)] else []) + OuterNames(syms, i + 1, nest)
  }

  function NamesSum(names: seq<bytes>): int {
    if names == [] then 0 else CharSum(names[0]) + NamesSum(names[1..])
  }

  lemma {:induction false} SumOfOuterNames(syms: seq<Nlist>, i: nat, nest: nat)
    requires i <= |syms|
    ensures HeaderSum(syms, i, nest) == NamesSum(OuterNames(syms, i, nest))
    decreases |syms| - i
  {
    hide NameSum, Numberless, CharSum;
    if i == |syms| {
    } else if Closes(syms[i]) {
      if nest > 0 { SumOfOuterNames(syms, i + 1, nest - 1); }
    } else if Opens(syms[i]) {
      SumOfOuterNames(syms, i + 1, nest + 1);
    } else {
      SumOfOuterNames(syms, i + 1, nest);
      SumOfNumberless(syms[i].name, 0);
      if nest == 0 {
        assert OuterNames(syms, i, nest)[1..] == OuterNames(syms, i + 1, nest);
      } else {
        assert OuterNames(syms, i, nest) == OuterNames(syms, i + 1, nest);
      }
    }
  }

  /** The checksum sees neither file numbers nor nested headers: two headers whose own names agree
      apart from file numbers have the same checksum. */
  lemma ChecksumInvariant(a: seq<Nlist>, i: nat, b: seq<Nlist>, j: nat)
    requires i <= |a| && j <= |b| && OuterNames(a, i, 0) == OuterNames(b, j, 0)
    ensures HeaderSum(a, i, 0) == HeaderSum(b, j, 0)
  {
    SumOfOuterNames(a, i, 0);
    SumOfOuterNames(b, j, 0);
  }

  /** A list of symbols with the file numbers in all names replaced. */
  function RenumberAll(syms: seq<Nlist>, f: bytes -> bytes): (r: seq<Nlist>)
    ensures |r| == |syms|
    ensures forall k :: 0 <= k < |syms| ==> r[k] == syms[k].(name := Renumbered(syms[k].name, 0, f))
  {
    seq(|syms|, k requires 0 <= k < |syms| => syms[k].(name := Renumbered(syms[k].name, 0, f)))
  }

  /** Symbols of the same types whose names agree apart from file numbers have the same outer names. */
  lemma {:induction false} SameOuterNames(a: seq<Nlist>, b: seq<Nlist>, i: nat, nest: nat)
    requires i <= |a| == |b|
    requires forall k :: 0 <= k < |a| ==> a[k].kind == b[k].kind && Numberless(a[k].name, 0) == Numberless(b[k].name, 0)
    ensures OuterNames(a, i, nest) == OuterNames(b, i, nest)
    decreases |a| - i
  {
    hide Numberless;
    if i < |a| {
      if Closes(a[i]) {
        if nest > 0 { SameOuterNames(a, b, i + 1, nest - 1); }
      } else if Opens(a[i]) {
        SameOuterNames(a, b, i + 1, nest + 1);
      } else {
        SameOuterNames(a, b, i + 1, nest);
      }
    }
  }

  lemma RenumberedNames(syms: seq<Nlist>, f: bytes -> bytes, i: nat, nest: nat)
    requires i <= |syms| && forall d: bytes :: AllDigits(f(d))
    ensures OuterNames(RenumberAll(syms, f), i, nest) == OuterNames(syms, i, nest)
  {
    hide Numberless, Renumbered, AllDigits, RenumberAll, OuterNames;
    var r := RenumberAll(syms, f);
    forall k | 0 <= k < |syms|
      ensures r[k].kind == syms[k].kind && Numberless(r[k].name, 0) == Numberless(syms[k].name, 0)
    {
      RenumberedNumberless(syms[k].name, 0, f);
    }
    SameOuterNames(r, syms, i, nest);
  }

  /** The checksum of a header is unchanged by any renumbering of the files, in all names at once. */
  lemma ChecksumRenumbered(syms: seq<Nlist>, f: bytes -> bytes, i: nat)
    requires i <= |syms| && forall d: bytes :: AllDigits(f(d))
    ensures HeaderSum(RenumberAll(syms, f), i, 0) == HeaderSum(syms, i, 0)
  {
    RenumberedNames(syms, f, i, 0);
    ChecksumInvariant(RenumberAll(syms, f), i, syms, i);
  }

  /** From inside a nested header the sum goes on behind its end, whatever stands in it. */
  lemma {:induction false} NestedIgnored(syms: seq<Nlist>, i: nat, inner: nat, nest: nat)
    requires i <= |syms|
    ensures var e := Scan(syms, i, inner);
            HeaderSum(syms, i, inner + 1 + nest) == if e < |syms| then HeaderSum(syms, e + 1, nest) else 0
    decreases |syms| - i
  {
    hide NameSum;
    if i == |syms| {
    } else if Closes(syms[i]) {
      if inner > 0 { NestedIgnored(syms, i + 1, inner - 1, nest); }
    } else if Opens(syms[i]) {
      NestedIgnored(syms, i + 1, inner + 1, nest);
    } else {
      NestedIgnored(syms, i + 1, inner, nest);
    }
  }

  /** The first loop at an opening symbol: the checksum of the header, in wrapping arithmetic. */
  method ScanHeader(syms: seq<Nlist>, at: nat) returns (val: nat)
    requires at < |syms|
    ensures val == Rem(HeaderSum(syms, at + 1, 0), TWO64)
  {
    hide Rem;
    var nest := 0;
    var total := 0;
    var i := at + 1;
    while i < |syms|
      invariant at < i <= |syms|
      invariant total + HeaderSum(syms, i, nest) == HeaderSum(syms, at + 1, 0)
    {
      if Closes(syms[i]) {
        if nest == 0 {
          break;
        }
        nest := nest - 1;
      } else if Opens(syms[i]) {
        nest := nest + 1;
      } else if nest == 0 {
        var sum := SumName(syms[i].name);
        total := total + sum;
      }
      i := i + 1;
    }
    val := Rem(total, TWO64);
  }

  method SumName(s: bytes) returns (val: int)
    ensures val == NameSum(s, 0)
  {
    val := 0;
    var i := 0;
    while i < |s|
      invariant 0 <= i <= |s| && val + NameSum(s, i) == NameSum(s, 0)
    {
      val := val + CharValue(s[i]);
      if s[i] == '(' {
        ghost var j := DigitsEnd(s, i + 1);
        ghost var start := i;
        i := i + 1;
        while i < |s| && IsDigit(s[i])
          invariant start < i <= j && DigitsEnd(s, i) == j
        {
          i := i + 1;
        }
        i := i - 1;
      }
      i := i + 1;
    }
  }

  // ---------------------------------------------------------------------------------------
  // Marking a header that is left out
  // ---------------------------------------------------------------------------------------

  /** Position `k` belongs to the header itself, or ends it. */
  predicate InHeader(syms: seq<Nlist>, i: nat, nest: nat, k: nat)
    requires i <= |syms|
    decreases |syms| - i
  {
    i < |syms| &&
    (if Closes(syms[i]) then if nest == 0 then k == i else InHeader(syms, i + 1, nest - 1, k)
     else if Opens(syms[i]) then InHeader(syms, i + 1, nest + 1, k)
     else (nest == 0 && k == i) || InHeader(syms, i + 1, nest, k))
  }

  /** The symbol map with the rest of a header marked. */
  function Marked(syms: seq<Nlist>, i: nat, nest: nat, symbolMap: seq<int>): (r: seq<int>)
    requires i <= |syms| == |symbolMap|
    ensures |r| == |symbolMap| && forall k :: 0 <= k < |r| ==> r[k] == -1 || r[k] == symbolMap[k]
    decreases |syms| - i
  {
    if i == |syms| then symbolMap
    else if Closes(syms[i]) then if nest == 0 then symbolMap[i := -1] else Marked(syms, i + 1, nest - 1, symbolMap)
    else if Opens(syms[i]) then Marked(syms, i + 1, nest + 1, symbolMap)
    else Marked(syms, i + 1, nest, if nest == 0 then symbolMap[i := -1] else symbolMap)
  }

  lemma {:induction false} MarkedAt(syms: seq<Nlist>, i: nat, nest: nat, symbolMap: seq<int>, k: nat)
    requires i <= |syms| == |symbolMap| && k < |syms|
    ensures Marked(syms, i, nest, symbolMap)[k] == if InHeader(syms, i, nest, k) then -1 else symbolMap[k]
    decreases |syms| - i
  {
    if i == |syms| {
    } else if Closes(syms[i]) {
      if nest > 0 { MarkedAt(syms, i + 1, nest - 1, symbolMap, k); }
    } else if Opens(syms[i]) {
      MarkedAt(syms, i + 1, nest + 1, symbolMap, k);
    } else {
      MarkedAt(syms, i + 1, nest, if nest == 0 then symbolMap[i := -1] else symbolMap, k);
    }
  }

  /** The second loop at an opening symbol, when the header is a duplicate. */
  method MarkHeader(syms: seq<Nlist>, at: nat, symbolMap: array<int>)
    requires at < |syms| == symbolMap.Length
    modifies symbolMap
    ensures symbolMap[..] == Marked(syms, at + 1, 0, old(symbolMap[..]))
  {
    var nest := 0;
    var i := at + 1;
    while i < |syms|
      invariant at < i <= |syms|
      invariant Marked(syms, i, nest, symbolMap[..]) == Marked(syms, at + 1, 0, old(symbolMap[..]))
    {
      ghost var before := symbolMap[..];
      if Closes(syms[i]) {
        if nest == 0 {
          symbolMap[i] := -1;
          assert symbolMap[..] == before[i := -1];
          return;
        }
        nest := nest - 1;
      } else if Opens(syms[i]) {
        nest := nest + 1;
      } else if nest == 0 {
        symbolMap[i] := -1;
        assert symbolMap[..] == before[i := -1];
      }
      i := i + 1;
    }
  }

  lemma HeaderAhead(syms: seq<Nlist>, i: nat, nest: nat)
    requires i <= |syms|
    ensures forall k: nat :: InHeader(syms, i, nest, k) ==> i <= k < |syms|
  {
    forall k: nat | InHeader(syms, i, nest, k)
      ensures i <= k < |syms|
    {
      AheadOf(syms, i, nest, k);
    }
  }

  lemma {:induction false} AheadOf(syms: seq<Nlist>, i: nat, nest: nat, k: nat)
    requires i <= |syms| && InHeader(syms, i, nest, k)
    ensures i <= k < |syms|
    decreases |syms| - i
  {
    if Closes(syms[i]) {
      if nest > 0 { AheadOf(syms, i + 1, nest - 1, k); }
    } else if Opens(syms[i]) {
      AheadOf(syms, i + 1, nest + 1, k);
    } else if k != i {
      AheadOf(syms, i + 1, nest, k);
    }
  }

  /** Of the brackets only the one that ends the header is marked. */
  lemma {:induction false} BracketInHeader(syms: seq<Nlist>, i: nat, nest: nat, k: nat)
    requires i <= k < |syms| && !Plain(syms[k])
    ensures InHeader(syms, i, nest, k) <==> k == Scan(syms, i, nest)
    decreases |syms| - i
  {
    if Closes(syms[i]) {
      if nest > 0 {
        if i < k { BracketInHeader(syms, i + 1, nest - 1, k); } else { NotAhead(syms, i + 1, nest - 1, k); }
      }
    } else if Opens(syms[i]) {
      if i < k { BracketInHeader(syms, i + 1, nest + 1, k); } else { NotAhead(syms, i + 1, nest + 1, k); }
    } else {
      BracketInHeader(syms, i + 1, nest, k);
    }
  }

  lemma NotAhead(syms: seq<Nlist>, i: nat, nest: nat, k: nat)
    requires k < i <= |syms|
    ensures !InHeader(syms, i, nest, k)
  {
    HeaderAhead(syms, i, nest);
  }

  /** Neighbours without a bracket between them are marked together. */
  lemma {:induction false} NeighboursInHeader(syms: seq<Nlist>, i: nat, nest: nat, k: nat)
    requires i <= k && k + 1 < |syms| && Plain(syms[k]) && Plain(syms[k + 1])
    ensures InHeader(syms, i, nest, k) <==> InHeader(syms, i, nest, k + 1)
    decreases |syms| - i
  {
    if Closes(syms[i]) {
      if nest > 0 { NeighboursInHeader(syms, i + 1, nest - 1, k); }
    } else if Opens(syms[i]) {
      NeighboursInHeader(syms, i + 1, nest + 1, k);
    } else if i < k {
      NeighboursInHeader(syms, i + 1, nest, k);
    } else {
      NotAhead(syms, i + 1, nest, k);
      if nest > 0 { BeyondFirst(syms, i + 1, nest); }
    }
  }

  lemma BeyondFirst(syms: seq<Nlist>, i: nat, nest: nat)
    requires i < |syms| && Plain(syms[i]) && nest > 0
    ensures !InHeader(syms, i, nest, i)
  {
    NotAhead(syms, i + 1, nest, i);
  }

  // ---------------------------------------------------------------------------------------
  // Brackets
  // ---------------------------------------------------------------------------------------

  /** How many brackets are open behind the first `n` symbols. */
  function Depth(syms: seq<Nlist>, n: nat): int
    requires n <= |syms|
  {
    if n == 0 then 0
    else Depth(syms, n - 1) + (if Opens(syms[n - 1]) then 1 else if Closes(syms[n - 1]) then -1 else 0)
  }

  /** No bracket is closed before it is opened. */
  ghost predicate NeverBelow(syms: seq<Nlist>) {
    forall n :: 0 <= n <= |syms| ==> Depth(syms, n) >= 0
  }

  ghost predicate Balanced(syms: seq<Nlist>) {
    NeverBelow(syms) && Depth(syms, |syms|) == 0
  }

  lemma {:induction false} DepthOfPrefix(a: seq<Nlist>, b: seq<Nlist>, n: nat)
    requires n <= |a|
    ensures Depth(a + b, n) == Depth(a, n)
  {
    if n > 0 { DepthOfPrefix(a, b, n - 1); }
  }

  /** One more symbol at the end. */
  lemma DepthNext(syms: seq<Nlist>, s: Nlist)
    requires NeverBelow(syms)
    ensures var d := Depth(syms, |syms|) + (if Opens(s) then 1 else if Closes(s) then -1 else 0);
            && Depth(syms + [s], |syms| + 1) == d
            && (d >= 0 ==> NeverBelow(syms + [s]))
  {
    DepthOfPrefix(syms, [s], |syms|);
    var d := Depth(syms + [s], |syms| + 1);
    if d >= 0 {
      forall n | 0 <= n <= |syms| + 1
        ensures Depth(syms + [s], n) >= 0
      {
        if n <= |syms| { DepthOfPrefix(syms, [s], n); }
      }
    }
  }

  // ---------------------------------------------------------------------------------------
  // The brackets that are open while the symbols of a file are copied
  // ---------------------------------------------------------------------------------------

  /** For each bracket that is open, innermost last, whether its header is kept. */
  type Open = seq<bool>

  function Kept(open: Open): nat {
    if open == [] then 0 else Kept(open[..|open| - 1]) + (if open[|open| - 1] then 1 else 0)
  }

  /** The symbol that closes bracket `p` of those that are open at `i`. */
  ghost function EndOf(syms: seq<Nlist>, i: nat, open: Open, p: nat): nat
    requires i <= |syms| && p < |open|
  {
    Scan(syms, i, |open| - 1 - p)
  }

  /** `e` closes a bracket whose header is left out. */
  ghost predicate EndsLeftOut(syms: seq<Nlist>, i: nat, open: Open, e: nat)
    requires i <= |syms|
  {
    exists p :: 0 <= p < |open| && !open[p] && e == EndOf(syms, i, open, p)
  }

  /** The end of an open bracket is marked exactly when its header is left out. */
  ghost predicate EndsMarked(syms: seq<Nlist>, i: nat, open: Open, symbolMap: seq<int>)
    requires i <= |syms| == |symbolMap|
  {
    forall e :: i <= e < |syms| && Closes(syms[e]) ==> (symbolMap[e] == -1 <==> EndsLeftOut(syms, i, open, e))
  }

  /** What the symbol map says about the symbols from `i` on. */
  ghost predicate MapOk(syms: seq<Nlist>, i: nat, open: Open, symbolMap: seq<int>) {
    && i <= |syms| == |symbolMap|
    && EndsMarked(syms, i, open, symbolMap)
    && (forall e :: i <= e < |syms| && Opens(syms[e]) ==> symbolMap[e] != -1)
    && (forall k :: i <= k && k + 1 < |syms| && Plain(syms[k]) && Plain(syms[k + 1]) ==>
          (symbolMap[k] == -1 <==> symbolMap[k + 1] == -1))
  }

  lemma SameEnds(syms: seq<Nlist>, i: nat, open: Open, i': nat, open': Open, e: nat)
    requires i <= |syms| && i' <= |syms| && |open'| <= |open|
    requires forall p :: 0 <= p < |open'| ==>
               open[p] == open'[p] && EndOf(syms, i, open, p) == EndOf(syms, i', open', p)
    requires forall p :: |open'| <= p < |open| ==> open[p] || EndOf(syms, i, open, p) != e
    ensures EndsLeftOut(syms, i, open, e) <==> EndsLeftOut(syms, i', open', e)
  {
    hide EndOf;
    if EndsLeftOut(syms, i, open, e) {
      var p :| 0 <= p < |open| && !open[p] && e == EndOf(syms, i, open, p);
      assert !open'[p] && e == EndOf(syms, i', open', p);
    }
    if EndsLeftOut(syms, i', open', e) {
      var p :| 0 <= p < |open'| && !open'[p] && e == EndOf(syms, i', open', p);
      assert !open[p] && e == EndOf(syms, i, open, p);
    }
  }

  /** Entries of the map behind which the copying has got no longer matter. */
  lemma PlainNext(syms: seq<Nlist>, i: nat, open: Open, symbolMap: seq<int>, v: int)
    requires MapOk(syms, i, open, symbolMap) && i < |syms| && Plain(syms[i])
    ensures MapOk(syms, i + 1, open, symbolMap[i := v])
  {
    hide EndsLeftOut;
    forall e | i + 1 <= e < |syms| && Closes(syms[e])
      ensures EndsLeftOut(syms, i, open, e) <==> EndsLeftOut(syms, i + 1, open, e)
    {
      SameEnds(syms, i, open, i + 1, open, e);
    }
  }

  /** A closing symbol is marked exactly when the innermost open header is left out. */
  lemma CloseNext(syms: seq<Nlist>, i: nat, open: Open, symbolMap: seq<int>, v: int)
    requires MapOk(syms, i, open, symbolMap) && i < |syms| && Closes(syms[i]) && open != []
    ensures symbolMap[i] == -1 <==> !open[|open| - 1]
    ensures MapOk(syms, i + 1, open[..|open| - 1], symbolMap[i := v])
  {
    hide EndsLeftOut;
    var rest, top := open[..|open| - 1], |open| - 1;
    assert EndOf(syms, i, open, top) == i;
    InnermostEnds(syms, i, open);
    forall e | i + 1 <= e < |syms| && Closes(syms[e])
      ensures EndsLeftOut(syms, i, open, e) <==> EndsLeftOut(syms, i + 1, rest, e)
    {
      SameEnds(syms, i, open, i + 1, rest, e);
    }
  }

  lemma InnermostEnds(syms: seq<Nlist>, i: nat, open: Open)
    requires i < |syms| && Closes(syms[i]) && open != []
    ensures EndsLeftOut(syms, i, open, i) <==> !open[|open| - 1]
  {
    var top := |open| - 1;
    assert EndOf(syms, i, open, top) == i;
    if EndsLeftOut(syms, i, open, i) {
      var p :| 0 <= p < |open| && !open[p] && i == EndOf(syms, i, open, p);
      assert p == top;
    }
  }

  /** An opening symbol whose header is kept. */
  lemma OpenKept(syms: seq<Nlist>, i: nat, open: Open, symbolMap: seq<int>, v: int)
    requires MapOk(syms, i, open, symbolMap) && i < |syms| && Opens(syms[i])
    ensures MapOk(syms, i + 1, open + [true], symbolMap[i := v])
  {
    hide EndsLeftOut;
    forall e | i + 1 <= e < |syms| && Closes(syms[e])
      ensures EndsLeftOut(syms, i, open, e) <==> EndsLeftOut(syms, i + 1, open + [true], e)
    {
      SameEnds(syms, i + 1, open + [true], i, open, e);
    }
  }

  /** An opening symbol whose header is left out: its header is marked. */
  lemma OpenLeftOut(syms: seq<Nlist>, i: nat, open: Open, symbolMap: seq<int>, v: int)
    requires MapOk(syms, i, open, symbolMap) && i < |syms| && Opens(syms[i])
    ensures MapOk(syms, i + 1, open + [false], Marked(syms, i + 1, 0, symbolMap)[i := v])
  {
    hide EndsLeftOut, Marked, InHeader, Scan;
    var m := Marked(syms, i + 1, 0, symbolMap)[i := v];
    forall e | i + 1 <= e < |syms|
      ensures m[e] == if InHeader(syms, i + 1, 0, e) then -1 else symbolMap[e]
    {
      MarkedAt(syms, i + 1, 0, symbolMap, e);
    }
    forall e | i + 1 <= e < |syms| && !Plain(syms[e])
      ensures InHeader(syms, i + 1, 0, e) <==> e == Scan(syms, i + 1, 0)
    {
      BracketInHeader(syms, i + 1, 0, e);
    }
    forall e | i + 1 <= e < |syms| && Closes(syms[e])
      ensures EndsLeftOut(syms, i + 1, open + [false], e)
              <==> EndsLeftOut(syms, i, open, e) || e == Scan(syms, i + 1, 0)
    {
      OneMoreEnd(syms, i, open, e);
    }
    forall k | i + 1 <= k && k + 1 < |syms| && Plain(syms[k]) && Plain(syms[k + 1])
      ensures InHeader(syms, i + 1, 0, k) <==> InHeader(syms, i + 1, 0, k + 1)
    {
      NeighboursInHeader(syms, i + 1, 0, k);
    }
  }

  lemma OneMoreEnd(syms: seq<Nlist>, i: nat, open: Open, e: nat)
    requires i < |syms| && Opens(syms[i])
    ensures EndsLeftOut(syms, i + 1, open + [false], e) <==> EndsLeftOut(syms, i, open, e) || e == Scan(syms, i + 1, 0)
  {
    var more := open + [false];
    if e == Scan(syms, i + 1, 0) {
      assert !more[|open|] && e == EndOf(syms, i + 1, more, |open|);
    } else {
      SameEnds(syms, i + 1, more, i, open, e);
    }
  }

  /** At the start nothing is open and nothing is marked. */
  lemma NothingMarked(syms: seq<Nlist>, symbolMap: seq<int>)
    requires |symbolMap| == |syms| && forall k :: 0 <= k < |symbolMap| ==> symbolMap[k] == 0
    ensures MapOk(syms, 0, [], symbolMap)
  {
  }
}
