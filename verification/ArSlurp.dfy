/** Reading the symbol index: the three formats, the guards against bad sizes, and the walk
    over the names. */
module ArSlurp {
  import opened Bytes
  import opened ArIndex

  /** `carsym`: a symbol and the position of the header of its member. */
  datatype Carsym = Carsym(name: bytes, offset: nat)

  const CARSYM_SIZE: nat := 16

  // ---------------------------------------------------------------------------------------
  // The walk over the names of a COFF or 64-bit index
  // ---------------------------------------------------------------------------------------

  /** Where the walk stands after `i` names: each step goes to the end of a C string and over
      its NUL, but never beyond the end of the strings. */
  function Cursor(strs: bytes, i: nat): (c: nat)
    ensures c <= |strs|
  {
    if i == 0 then 0
    else
      var c := Cursor(strs, i - 1);
      var e := c + IndexOf(strs[c..], '\0');
      if e != |strs| then e + 1 else e
  }

  function RawSize(kind: MapKind, n: nat): nat {
    if kind.Map64? then 8 * n else 4 * n
  }

  function OffsetAt(kind: MapKind, raw: bytes, i: nat): nat
    requires !kind.BsdMap? && |raw| >= RawSize(kind, i + 1)
  {
    if kind.Map64? then Get64(true, raw[8 * i..8 * i + 8]) else Get32(true, raw[4 * i..4 * i + 4])
  }

  function Carsyms(kind: MapKind, raw: bytes, strs: bytes, n: nat): (r: seq<Carsym>)
    requires !kind.BsdMap? && |raw| == RawSize(kind, n)
    ensures |r| == n
  {
    seq(n, i requires 0 <= i < n => CarsymAt(kind, raw, strs, i))
  }

  function CarsymAt(kind: MapKind, raw: bytes, strs: bytes, i: nat): Carsym
    requires !kind.BsdMap? && |raw| >= RawSize(kind, i + 1)
  {
    Carsym(CString(strs[Cursor(strs, i)..]), OffsetAt(kind, raw, i))
  }

  /** The loop that builds the symbols, with a pointer into the strings. */
  method BuildCarsyms(kind: MapKind, raw: bytes, strs: bytes, n: nat) returns (r: seq<Carsym>)
    requires !kind.BsdMap? && |raw| == RawSize(kind, n)
    ensures r == Carsyms(kind, raw, strs, n)
  {
    hide Get32, Get64, CString;
    r := [];
    var base: nat, i: nat := 0, 0;
    ghost var all := Carsyms(kind, raw, strs, n);
    while i < n
      invariant i <= n && r == all[..i]
      invariant base == Cursor(strs, i) <= |strs|
    {
      var sym := Carsym(CString(strs[base..]), OffsetAt(kind, raw, i));
      assert all[i] == sym;
      PrefixStep(all, i);
      r := r + [sym];
      base := Advance(strs, base, i);
      i := i + 1;
    }
  }

  /** Over one name. */
  method Advance(strs: bytes, base: nat, ghost i: nat) returns (next: nat)
    requires base == Cursor(strs, i)
    ensures next == Cursor(strs, i + 1)
  {
    next := base + IndexOf(strs[base..], '\0');
    if next != |strs| { next := next + 1; }
  }

  // ---------------------------------------------------------------------------------------
  // The formats
  // ---------------------------------------------------------------------------------------

  /** `do_slurp_coff_armap`, on the bytes behind the header. */
  function ParseCoff(body: bytes): (r: Option<seq<Carsym>>)
  {
    if |body| < 4 then None
    else
      var n := Get32(true, body[..4]);
      if |body| - 4 < 4 * n then None
      else Some(Carsyms(CoffMap, body[4..4 + 4 * n], body[4 + 4 * n..], n))
  }

  /** The checks of `_bfd_archive_64_bit_slurp_armap`, in wrapping 64-bit arithmetic. */
  predicate Guards64(n: nat, parsed: nat)
    requires n < TWO64 && parsed < TWO64
  {
    var stringsize := (parsed - 8 * n - 8) % TWO64;
    var carsymSize := (n * CARSYM_SIZE) % TWO64;
    var amt := (carsymSize + stringsize + 1) % TWO64;
    !(|| n >= (TWO64 - 1) / 8
      || stringsize > parsed
      || n > (TWO64 - 1) / CARSYM_SIZE
      || amt <= carsymSize
      || amt <= stringsize)
  }

  /** The checks are exact: they accept a number of symbols if and only if the symbols fit in
      the index and the table to be allocated for them has a size, all as plain integers. */
  lemma GuardsExact(n: nat, parsed: nat)
    requires n < TWO64 && parsed < TWO64
    ensures Guards64(n, parsed) <==>
            && 8 * n + 8 <= parsed
            && n * CARSYM_SIZE < TWO64
            && n * CARSYM_SIZE + (parsed - 8 * n - 8) + 1 < TWO64
  {
    var stringsize := (parsed - 8 * n - 8) % TWO64;
    if n < (TWO64 - 1) / 8 {
      if parsed >= 8 * n + 8 {
        assert stringsize == parsed - 8 * n - 8;
      } else {
        assert stringsize == parsed - 8 * n - 8 + TWO64;
      }
    }
  }

  function Parse64(body: bytes): (r: Option<seq<Carsym>>)
    requires |body| < TWO64
  {
    if |body| < 8 then None
    else
      var n := Get64(true, body[..8]);
      if !Guards64(n, |body|) then None
      else
        GuardsExact(n, |body|);
        Some(Carsyms(Map64, body[8..8 + 8 * n], body[8 + 8 * n..], n))
  }

  /** One symbol of a BSD index: its name starts at a stored place among the strings. */
  function BsdSym(big: bool, slots: bytes, strs: bytes, i: nat): (r: Option<Carsym>)
    requires 8 * (i + 1) <= |slots|
  {
    var nameoff := Get32(big, slots[8 * i..8 * i + 4]);
    if nameoff >= |strs| then None
    else Some(Carsym(CString(strs[nameoff..]), Get32(big, slots[8 * i + 4..8 * i + 8])))
  }

  function BsdSyms(big: bool, slots: bytes, strs: bytes, n: nat): (r: Option<seq<Carsym>>)
    requires 8 * n <= |slots|
    ensures r.Some? ==> |r.value| == n
  {
    if n == 0 then Some([])
    else
      match BsdSyms(big, slots, strs, n - 1)
      case None => None
      case Some(front) =>
        match BsdSym(big, slots, strs, n - 1)
        case None => None
        case Some(sym) => Some(front + [sym])
  }

  /** `do_slurp_bsd_armap`, on the bytes behind the header. */
  function ParseBsd(big: bool, body: bytes): (r: Option<seq<Carsym>>)
  {
    if |body| < 8 then None
    else
      var size := Get32(big, body[..4]);
      if size > |body| - 8 || size % 8 != 0 then None
      else BsdSyms(big, body[4..4 + size], body[8 + size..], size / 8)
  }

  method SlurpBsd(big: bool, body: bytes) returns (r: Option<seq<Carsym>>)
    ensures r == ParseBsd(big, body)
  {
    hide Get32, BsdSyms;
    if |body| < 8 {
      return None;
    }
    var size := Get32(big, body[..4]);
    if size > |body| - 8 || size % 8 != 0 {
      return None;
    }
    r := BuildBsdSyms(big, body[4..4 + size], body[8 + size..], size / 8);
  }

  method BuildBsdSyms(big: bool, slots: bytes, strs: bytes, n: nat) returns (r: Option<seq<Carsym>>)
    requires 8 * n <= |slots|
    ensures r == BsdSyms(big, slots, strs, n)
  {
    hide BsdSym;
    var i := 0;
    var syms: seq<Carsym> := [];
    hide BsdSyms;
    NoBsdSyms(big, slots, strs);
    while i < n
      invariant 0 <= i <= n && BsdSyms(big, slots, strs, i) == Some(syms)
    {
      var sym := BsdSym(big, slots, strs, i);
      BsdSymsNext(big, slots, strs, i, syms);
      if sym.None? {
        BsdSymsFail(big, slots, strs, i + 1, n);
        return None;
      }
      syms := syms + [sym.value];
      i := i + 1;
    }
    r := Some(syms);
  }

  lemma NoBsdSyms(big: bool, slots: bytes, strs: bytes)
    ensures BsdSyms(big, slots, strs, 0) == Some([])
  {
  }

  lemma BsdSymsNext(big: bool, slots: bytes, strs: bytes, i: nat, syms: seq<Carsym>)
    requires 8 * (i + 1) <= |slots| && BsdSyms(big, slots, strs, i) == Some(syms)
    ensures BsdSyms(big, slots, strs, i + 1)
            == match BsdSym(big, slots, strs, i) case None => None case Some(sym) => Some(syms + [sym])
  {
    hide BsdSym;
  }

  lemma {:induction false} BsdSymsFail(big: bool, slots: bytes, strs: bytes, i: nat, n: nat)
    requires i <= n && 8 * n <= |slots| && BsdSyms(big, slots, strs, i) == None
    ensures BsdSyms(big, slots, strs, n) == None
    decreases n
  {
    hide BsdSym;
    if i < n { BsdSymsFail(big, slots, strs, i, n - 1); }
  }

  /** The symbols in an index of a given format. */
  function Parse(kind: MapKind, big: bool, body: bytes): Option<seq<Carsym>>
    requires |body| < TWO64
  {
    match kind
    case BsdMap => ParseBsd(big, body)
    case CoffMap => ParseCoff(body)
    case Map64 => Parse64(body)
  }

  method SlurpBody(kind: MapKind, big: bool, body: bytes) returns (r: Option<seq<Carsym>>)
    requires |body| < TWO64
    ensures r == Parse(kind, big, body)
  {
    match kind
    case BsdMap => r := SlurpBsd(big, body);
    case CoffMap =>
      if |body| < 4 {
        return None;
      }
      var n := Get32(true, body[..4]);
      if |body| - 4 < 4 * n {
        return None;
      }
      var syms := BuildCarsyms(CoffMap, body[4..4 + 4 * n], body[4 + 4 * n..], n);
      r := Some(syms);
    case Map64 =>
      if |body| < 8 {
        return None;
      }
      var n := Get64(true, body[..8]);
      if !Guards64(n, |body|) {
        return None;
      }
      GuardsExact(n, |body|);
      var syms := BuildCarsyms(Map64, body[8..8 + 8 * n], body[8 + 8 * n..], n);
      r := Some(syms);
  }

  // ---------------------------------------------------------------------------------------
  // Round trip
  // ---------------------------------------------------------------------------------------

  /** The symbols of an index with given offsets. */
  function Symdefs(index: seq<Entry>, offs: seq<nat>): (r: seq<Carsym>)
    requires |offs| == |index|
    ensures |r| == |index|
  {
    seq(|index|, i requires 0 <= i < |index| => Carsym(index[i].name, offs[i]))
  }

  lemma NameAt(index: seq<Entry>, i: nat, pad: bytes)
    requires i < |index| && NulFree(index[i].name)
    ensures var strs := Strings(index) + pad; var c := |StringsUpTo(index, i)|;
            && c + |index[i].name| < |strs|
            && CString(strs[c..]) == index[i].name && IndexOf(strs[c..], '\0') == |index[i].name|
            && |StringsUpTo(index, i + 1)| == c + |index[i].name| + 1
  {
    var parts := NameParts(index);
    ConcatSlice(parts, i, |index|);
    NameInStrings(Strings(index), |Concat(parts, i)|, |Concat(parts, i + 1)|, index[i].name, pad);
  }

  lemma NameInStrings(strings: bytes, a: nat, b: nat, name: bytes, pad: bytes)
    requires a <= b <= |strings| && strings[a..b] == name + "\0" && NulFree(name)
    ensures var strs := strings + pad;
            && a + |name| < |strs| && CString(strs[a..]) == name && IndexOf(strs[a..], '\0') == |name|
  {
    var rest := strings[b..] + pad;
    assert (strings + pad)[a..] == name + "\0" + rest;
    CStringOf(name, rest);
    IndexOfUnique(name + "\0" + rest, '\0', |name|);
  }

  lemma CursorStart(strs: bytes)
    ensures Cursor(strs, 0) == 0
  {
  }

  lemma CursorStep(strs: bytes, i: nat, len: nat)
    requires IndexOf(strs[Cursor(strs, i)..], '\0') == len && Cursor(strs, i) + len < |strs|
    ensures Cursor(strs, i + 1) == Cursor(strs, i) + len + 1
  {
  }

  /** The walk visits the names in order, whatever the padding behind them. */
  lemma {:induction false} CursorAt(index: seq<Entry>, i: nat, pad: bytes)
    requires i <= |index| && forall j :: 0 <= j < |index| ==> NulFree(index[j].name)
    ensures Cursor(Strings(index) + pad, i) == |StringsUpTo(index, i)|
  {
    hide CString, NulFree, NameParts, IndexOf, Cursor;
    if i == 0 {
      CursorStart(Strings(index) + pad);
    } else {
      CursorAt(index, i - 1, pad);
      NameAt(index, i - 1, pad);
      CursorStep(Strings(index) + pad, i - 1, |index[i - 1].name|);
    }
  }

  /** Slot `i` of the index. */
  lemma SlotAt(kind: MapKind, big: bool, index: seq<Entry>, offs: seq<nat>, i: nat)
    requires SlotsFit(kind, index, offs) && i < |index|
    ensures var w := SlotSize(kind);
            && 0 <= w * i < w * i + w <= |Slots(kind, big, index, offs)|
            && Slots(kind, big, index, offs)[w * i..w * i + w] == Slot(kind, big, index[i], offs[i])
  {
    hide Put32, Put64, Concat, SlotParts;
    var parts := SlotParts(kind, big, index, offs);
    ConcatSlice(parts, i, |index|);
    EqualParts(parts, SlotSize(kind), i);
    EqualParts(parts, SlotSize(kind), i + 1);
  }

  lemma CarsymRoundTrip(kind: MapKind, big: bool, index: seq<Entry>, offs: seq<nat>, pad: bytes, i: nat)
    requires !kind.BsdMap? && SlotsFit(kind, index, offs) && i < |index|
    requires forall j :: 0 <= j < |index| ==> NulFree(index[j].name)
    ensures RawSize(kind, i + 1) <= |Slots(kind, big, index, offs)|
    ensures CarsymAt(kind, Slots(kind, big, index, offs), Strings(index) + pad, i) == Carsym(index[i].name, offs[i])
  {
    hide Put32, Put64, Get32, Get64, Cursor, CString, Slots, NameParts;
    SlotAt(kind, big, index, offs, i);
    if kind.Map64? { Word64RoundTrip(true, offs[i]); } else { Word32RoundTrip(true, offs[i]); }
    CursorAt(index, i, pad);
    NameAt(index, i, pad);
  }

  /** The names and offsets of a COFF or 64-bit index come back as they were written, whatever
      the padding behind the names. */
  lemma CarsymsRoundTrip(kind: MapKind, big: bool, index: seq<Entry>, offs: seq<nat>, pad: bytes)
    requires !kind.BsdMap? && SlotsFit(kind, index, offs)
    requires forall j :: 0 <= j < |index| ==> NulFree(index[j].name)
    ensures |Slots(kind, big, index, offs)| == RawSize(kind, |index|)
    ensures Carsyms(kind, Slots(kind, big, index, offs), Strings(index) + pad, |index|) == Symdefs(index, offs)
  {
    hide Slots, CarsymAt, Strings;
    SlotsLength(kind, big, index, offs);
    forall i | 0 <= i < |index|
      ensures CarsymAt(kind, Slots(kind, big, index, offs), Strings(index) + pad, i) == Carsym(index[i].name, offs[i])
    {
      CarsymRoundTrip(kind, big, index, offs, pad, i);
    }
  }

  lemma BsdSymRoundTrip(big: bool, index: seq<Entry>, offs: seq<nat>, pad: bytes, i: nat)
    requires SlotsFit(BsdMap, index, offs) && i < |index| && OrderedUpTo(index, |index|)
    requires forall j :: 0 <= j < |index| ==> NulFree(index[j].name)
    ensures 8 * (i + 1) <= |Slots(BsdMap, big, index, offs)|
    ensures BsdSym(big, Slots(BsdMap, big, index, offs), Strings(index) + pad, i)
            == Some(Carsym(index[i].name, offs[i]))
  {
    hide Put32, Get32, CString, Slots, NameParts, OrderedUpTo, IndexOf;
    var slots := Slots(BsdMap, big, index, offs);
    SlotAt(BsdMap, big, index, offs, i);
    var nameField, offField := Put32(big, index[i].nameIndex), Put32(big, offs[i]);
    HalvesOf(slots, 8 * i, nameField, offField);
    Word32RoundTrip(big, offs[i]);
    Word32RoundTrip(big, index[i].nameIndex);
    OrderedAt(index, |index|, i, i);
    NameAt(index, i, pad);
  }

  lemma HalvesOf(s: bytes, at: nat, a: bytes, b: bytes)
    requires at + 8 <= |s| && |a| == 4 && |b| == 4 && s[at..at + 8] == a + b
    ensures s[at..at + 4] == a && s[at + 4..at + 8] == b
  {
    assert s[at..at + 4] == s[at..at + 8][..4] && s[at + 4..at + 8] == s[at..at + 8][4..];
  }

  lemma {:induction false} BsdSymsRoundTrip(big: bool, index: seq<Entry>, offs: seq<nat>, pad: bytes, n: nat)
    requires SlotsFit(BsdMap, index, offs) && n <= |index| && OrderedUpTo(index, |index|)
    requires forall j :: 0 <= j < |index| ==> NulFree(index[j].name)
    ensures 8 * n <= |Slots(BsdMap, big, index, offs)|
    ensures BsdSyms(big, Slots(BsdMap, big, index, offs), Strings(index) + pad, n) == Some(Symdefs(index, offs)[..n])
  {
    hide Slots, Strings, OrderedUpTo, BsdSym;
    if n > 0 {
      BsdSymsRoundTrip(big, index, offs, pad, n - 1);
      BsdSymRoundTrip(big, index, offs, pad, n - 1);
      PrefixStep(Symdefs(index, offs), n - 1);
    }
  }

  /** Serialisation of the index: in each of the three formats, reading what was written gives
      back the symbols and the offsets, all of them and no more. */
  lemma MapRoundTrip(kind: MapKind, big: bool, index: seq<Entry>, offs: seq<nat>, members: nat)
    requires MapFits(index, 0) && SlotsFit(kind, index, offs) && ValidMap(index, members)
    ensures |MapBody(kind, big, index, offs)| < TWO32
    ensures Parse(kind, big, MapBody(kind, big, index, offs)) == Some(Symdefs(index, offs))
  {
    MapBodyLength(kind, big, index, offs);
    MapSizeFits(kind, index);
    match kind
    case CoffMap => CoffRoundTrip(big, index, offs);
    case Map64 => RoundTrip64(big, index, offs);
    case BsdMap => BsdRoundTrip(big, index, offs);
  }

  lemma MapSizeFits(kind: MapKind, index: seq<Entry>)
    requires MapFits(index, 0)
    ensures MapSize(kind, index) < TWO32
  {
  }

  /** The parts of an index that is read. */
  lemma BodyParts(count: bytes, slots: bytes, field: bytes, strs: bytes, pad: bytes)
    ensures var body := count + slots + field + strs + pad; var c, n, f := |count|, |slots|, |field|;
            && body[..c] == count && body[c..c + n] == slots && body[c + n + f..] == strs + pad
  {
    var body := count + slots + field + strs + pad;
    assert body == count + (slots + (field + (strs + pad)));
  }

  lemma CoffRoundTrip(big: bool, index: seq<Entry>, offs: seq<nat>)
    requires MapFits(index, 0) && SlotsFit(CoffMap, index, offs)
    requires forall j :: 0 <= j < |index| ==> NulFree(index[j].name)
    ensures ParseCoff(MapBody(CoffMap, big, index, offs)) == Some(Symdefs(index, offs))
  {
    hide Put32, Get32, Slots, Strings, Carsyms, Padding;
    var pad := Fill('\0', Padding(CoffMap, index));
    CarsymsRoundTrip(CoffMap, big, index, offs, pad);
    BodyParts(Put32(true, |index|), Slots(CoffMap, big, index, offs), [], Strings(index), pad);
    Word32RoundTrip(true, |index|);
  }

  lemma RoundTrip64(big: bool, index: seq<Entry>, offs: seq<nat>)
    requires MapFits(index, 0) && SlotsFit(Map64, index, offs) && |MapBody(Map64, big, index, offs)| < TWO32
    requires forall j :: 0 <= j < |index| ==> NulFree(index[j].name)
    ensures Parse64(MapBody(Map64, big, index, offs)) == Some(Symdefs(index, offs))
  {
    hide Put64, Get64, Slots, Strings, Carsyms, Padding, Guards64;
    var pad := Fill('\0', Padding(Map64, index));
    CarsymsRoundTrip(Map64, big, index, offs, pad);
    BodyParts(Put64(true, |index|), Slots(Map64, big, index, offs), [], Strings(index), pad);
    Word64RoundTrip(true, |index|);
    GuardsExact(|index|, |MapBody(Map64, big, index, offs)|);
  }

  lemma BsdRoundTrip(big: bool, index: seq<Entry>, offs: seq<nat>)
    requires MapFits(index, 0) && SlotsFit(BsdMap, index, offs) && OrderedUpTo(index, |index|)
    requires forall j :: 0 <= j < |index| ==> NulFree(index[j].name)
    ensures ParseBsd(big, MapBody(BsdMap, big, index, offs)) == Some(Symdefs(index, offs))
  {
    hide Put32, Slots, Strings, BsdSyms, Padding, OrderedUpTo, EvenUp, ParseBsd, Symdefs, Fill;
    var pad := Fill('\0', Padding(BsdMap, index));
    BsdSymsRoundTrip(big, index, offs, pad, |index|);
    SlotsLength(BsdMap, big, index, offs);
    ParseBsdBody(big, |index|, Slots(BsdMap, big, index, offs), Put32(big, StringSize(BsdMap, index)), Strings(index),
                 pad);
    WholePrefix(Symdefs(index, offs));
  }

  lemma ParseBsdBody(big: bool, n: nat, slots: bytes, field: bytes, strs: bytes, pad: bytes)
    requires 8 * n < TWO32 && |slots| == 8 * n && |field| == 4
    ensures ParseBsd(big, Put32(big, 8 * n) + slots + field + strs + pad) == BsdSyms(big, slots, strs + pad, n)
  {
    hide Put32, Get32, BsdSyms, ParseBsd;
    var count := Put32(big, 8 * n);
    BodyParts(count, slots, field, strs, pad);
    Word32RoundTrip(big, 8 * n);
    ParseBsdParts(big, count + slots + field + strs + pad, n, slots, strs + pad);
  }

  lemma WholePrefix<T>(s: seq<T>)
    ensures s[..|s|] == s
  {
  }

  lemma ParseBsdParts(big: bool, body: bytes, n: nat, slots: bytes, strs: bytes)
    requires |slots| == 8 * n && 8 + 8 * n <= |body| && Get32(big, body[..4]) == 8 * n
    requires body[4..4 + 8 * n] == slots && body[4 + 8 * n + 4..] == strs
    ensures ParseBsd(big, body) == BsdSyms(big, slots, strs, n)
  {
    hide Get32, BsdSyms;
    assert 8 * n % 8 == 0 && 8 * n / 8 == n;
  }
}
