/** The symbol index of an archive: which symbols go in, where the writer predicts each member
    will be, and the three formats in which the predictions are written. */
module ArIndex {
  import opened Bytes
  import opened ArHeader
  import opened ArNames

  /** The archive file while it is being written. */
  class OutputFile {
    var data: bytes

    constructor ()
      ensures data == []
    {
      data := [];
    }

    /** `bfd_write` */
    method Write(b: bytes)
      modifies this
      ensures data == old(data) + b
    {
      data := data + b;
    }
  }

  // ---------------------------------------------------------------------------------------
  // Choosing the symbols
  // ---------------------------------------------------------------------------------------

  /** `struct orl`: a symbol, the member that defines it, and where its name starts among the
      names of the index. */
  datatype Entry = Entry(name: bytes, member: nat, nameIndex: nat)

  /** The symbols that go into the index. */
  predicate Wanted(s: Sym) {
    (s.global || s.weak || s.indirect || s.unique || s.common) && !s.undefined
  }

  /** The names of the index, each with its NUL. */
  function NameParts(index: seq<Entry>): (r: seq<bytes>)
    ensures |r| == |index|
    ensures forall i :: 0 <= i < |index| ==> r[i] == index[i].name + "\0"
  {
    seq(|index|, i requires 0 <= i < |index| => index[i].name + "\0")
  }

  function StringsUpTo(index: seq<Entry>, k: nat): bytes
    requires k <= |index|
  {
    Concat(NameParts(index), k)
  }

  function Strings(index: seq<Entry>): bytes {
    StringsUpTo(index, |index|)
  }

  /** The first `k` entries are in the order of their members, and each knows where its name
      starts. */
  predicate OrderedUpTo(index: seq<Entry>, k: nat)
    requires k <= |index|
  {
    k == 0 ||
    (&& OrderedUpTo(index, k - 1)
     && index[k - 1].nameIndex == |StringsUpTo(index, k - 1)|
     && (k > 1 ==> index[k - 2].member <= index[k - 1].member))
  }

  /** The index mentions existing members, in their order, and names without NUL. */
  predicate ValidMap(index: seq<Entry>, members: nat) {
    && OrderedUpTo(index, |index|)
    && forall i :: 0 <= i < |index| ==> index[i].member < members && NulFree(index[i].name)
  }

  lemma {:induction false} OrderedAt(index: seq<Entry>, k: nat, i: nat, j: nat)
    requires k <= |index| && OrderedUpTo(index, k) && i <= j < k
    ensures index[i].member <= index[j].member
    ensures index[j].nameIndex == |StringsUpTo(index, j)|
  {
    if j < k - 1 {
      OrderedAt(index, k - 1, i, j);
    } else if i < j {
      OrderedAt(index, k - 1, i, j - 1);
    }
  }

  /** Entries further on do not matter. */
  lemma {:induction false} PrefixOfIndex(index: seq<Entry>, e: Entry, k: nat)
    requires k <= |index|
    ensures StringsUpTo(index + [e], k) == StringsUpTo(index, k)
    ensures OrderedUpTo(index + [e], k) == OrderedUpTo(index, k)
  {
    ConcatSame(NameParts(index + [e]), NameParts(index), k);
    if k > 0 { PrefixOfIndex(index, e, k - 1); }
  }

  predicate SymbolNamesOk(ms: seq<Member>) {
    forall i, j :: 0 <= i < |ms| && 0 <= j < |ms[i].symbols| ==> NulFree(ms[i].symbols[j].name)
  }

  /** The wanted part of one symbol. */
  function PairOf(s: Sym, k: nat): seq<(bytes, nat)> {
    if Wanted(s) then [(s.name, k)] else []
  }

  /** The wanted ones of the first `n` symbols of member `k`, in order. */
  function Pairs(symbols: seq<Sym>, n: nat, k: nat): seq<(bytes, nat)>
    requires n <= |symbols|
  {
    if n == 0 then [] else Pairs(symbols, n - 1, k) + PairOf(symbols[n - 1], k)
  }

  /** The wanted symbols of the object files among the first `k` members, in order. */
  function Defined(ms: seq<Member>, k: nat): seq<(bytes, nat)>
    requires k <= |ms|
  {
    if k == 0 then []
    else Defined(ms, k - 1) + (if ms[k - 1].isObject then Pairs(ms[k - 1].symbols, |ms[k - 1].symbols|, k - 1) else [])
  }

  /** The index lists exactly the given symbols. */
  predicate Lists(index: seq<Entry>, pairs: seq<(bytes, nat)>) {
    |index| == |pairs| && forall i :: 0 <= i < |index| ==> (index[i].name, index[i].member) == pairs[i]
  }

  lemma AddEntry(index: seq<Entry>, e: Entry, members: nat)
    requires ValidMap(index, members) && e.member < members && NulFree(e.name)
    requires e.nameIndex == |Strings(index)| && (index != [] ==> index[|index| - 1].member <= e.member)
    ensures ValidMap(index + [e], members) && |Strings(index + [e])| == |Strings(index)| + |e.name| + 1
  {
    PrefixOfIndex(index, e, |index|);
  }

  /** One symbol added to the index if it is wanted. */
  method AddSymbol(s: Sym, k: nat, members: nat, index0: seq<Entry>, stridx0: nat, ghost pairs: seq<(bytes, nat)>)
    returns (index: seq<Entry>, stridx: nat)
    requires NulFree(s.name) && k < members
    requires ValidMap(index0, members) && stridx0 == |Strings(index0)| && Lists(index0, pairs)
    requires index0 != [] ==> index0[|index0| - 1].member <= k
    ensures ValidMap(index, members) && stridx == |Strings(index)| && Lists(index, pairs + PairOf(s, k))
    ensures index != [] ==> index[|index| - 1].member <= k
  {
    index, stridx := index0, stridx0;
    if Wanted(s) {
      var e := Entry(s.name, k, stridx);
      AddEntry(index, e, members);
      index := index + [e];
      stridx := stridx + |s.name| + 1;
    }
  }

  /** The inner loop of `_bfd_compute_and_write_armap`, over the symbols of one member. */
  method CollectFrom(symbols: seq<Sym>, k: nat, members: nat, index0: seq<Entry>, stridx0: nat,
                     ghost before: seq<(bytes, nat)>)
    returns (index: seq<Entry>, stridx: nat)
    requires forall j :: 0 <= j < |symbols| ==> NulFree(symbols[j].name)
    requires k < members && ValidMap(index0, members) && stridx0 == |Strings(index0)| && Lists(index0, before)
    requires index0 != [] ==> index0[|index0| - 1].member <= k
    ensures ValidMap(index, members) && stridx == |Strings(index)|
    ensures Lists(index, before + Pairs(symbols, |symbols|, k))
    ensures index != [] ==> index[|index| - 1].member <= k
  {
    hide OrderedUpTo, Concat, Wanted, NulFree, NameParts, PairOf;
    index, stridx := index0, stridx0;
    var src := 0;
    ghost var pairs := before;
    while src < |symbols|
      invariant 0 <= src <= |symbols|
      invariant ValidMap(index, members) && stridx == |Strings(index)|
      invariant Lists(index, pairs) && pairs == before + Pairs(symbols, src, k)
      invariant index != [] ==> index[|index| - 1].member <= k
    {
      Regroup(before, Pairs(symbols, src, k), PairOf(symbols[src], k));
      index, stridx := AddSymbol(symbols[src], k, members, index, stridx, pairs);
      pairs := pairs + PairOf(symbols[src], k);
      src := src + 1;
    }
  }

  lemma DefinedStep(ms: seq<Member>, k: nat)
    requires k < |ms|
    ensures Defined(ms, k + 1) == if ms[k].isObject then Defined(ms, k) + Pairs(ms[k].symbols, |ms[k].symbols|, k)
                                  else Defined(ms, k)
  {
    hide Pairs;
  }

  lemma NothingCollected(ms: seq<Member>)
    ensures ValidMap([], |ms|) && |Strings([])| == 0 && Lists([], Defined(ms, 0))
  {
  }

  /** The collecting part of `_bfd_compute_and_write_armap`. */
  method CollectSymbols(ms: seq<Member>) returns (index: seq<Entry>, stridx: nat)
    requires SymbolNamesOk(ms)
    ensures ValidMap(index, |ms|) && Lists(index, Defined(ms, |ms|)) && stridx == |Strings(index)|
  {
    hide Pairs, OrderedUpTo, NulFree, Concat, Defined, Lists, NameParts, ValidMap, Strings;
    index, stridx := [], 0;
    NothingCollected(ms);
    var current := 0;
    while current < |ms|
      invariant 0 <= current <= |ms|
      invariant ValidMap(index, |ms|) && Lists(index, Defined(ms, current)) && stridx == |Strings(index)|
      invariant index != [] ==> index[|index| - 1].member <= current
    {
      DefinedStep(ms, current);
      if ms[current].isObject {
        index, stridx := CollectFrom(ms[current].symbols, current, |ms|, index, stridx, Defined(ms, current));
      }
      current := current + 1;
    }
  }

  // ---------------------------------------------------------------------------------------
  // Predicting positions
  // ---------------------------------------------------------------------------------------

  datatype MapKind = BsdMap | CoffMap | Map64

  function EvenUp(n: nat): (r: nat)
    ensures r % 2 == 0 && n <= r <= n + 1
  {
    n + n % 2
  }

  function AlignUp8(n: nat): (r: nat)
    ensures r % 8 == 0 && n <= r < n + 8
  {
    (n + 7) / 8 * 8
  }

  /** How many bytes behind its header the index writer counts for a member. */
  function Counted(kind: MapKind, thin: bool, m: Member): nat {
    if kind.BsdMap? then |m.contents| + m.extra
    else if thin then 0 else |m.contents|
  }

  /** The position behind a member whose header is at `p`, as the index writer advances it. */
  function Behind(kind: MapKind, thin: bool, m: Member, p: nat): (next: nat)
    ensures next >= p + HDR_SIZE
  {
    var end := p + HDR_SIZE + Counted(kind, thin, m);
    if kind.CoffMap? && thin then end else EvenUp(end)
  }

  /** Where the index writer puts member `k`, when the first member is at `first`. */
  function Predicted(kind: MapKind, thin: bool, ms: seq<Member>, first: nat, k: nat): (p: nat)
    requires k <= |ms|
    ensures p >= first
  {
    if k == 0 then first
    else Behind(kind, thin, ms[k - 1], Predicted(kind, thin, ms, first, k - 1))
  }

  function StringSize(kind: MapKind, index: seq<Entry>): nat {
    if kind.BsdMap? then EvenUp(|Strings(index)|) else |Strings(index)|
  }

  /** The size of the index behind its header. */
  function MapSize(kind: MapKind, index: seq<Entry>): (n: nat) {
    match kind
    case BsdMap => 8 * |index| + StringSize(kind, index) + 8
    case CoffMap => EvenUp(4 * |index| + 4 + |Strings(index)|)
    case Map64 => AlignUp8(8 * |index| + 8 + |Strings(index)|)
  }

  /** The index, the extended name table behind it and their headers fit in the 32-bit
      counters of the writers. */
  predicate MapFits(index: seq<Entry>, elength: nat) {
    8 * |index| + |Strings(index)| + 24 + elength < TWO31
  }

  /** The position of the first member: behind the magic string, the index and the extended
      name table, whose length with its header is `elength`. */
  function FirstMember(kind: MapKind, index: seq<Entry>, elength: nat): nat {
    (MapSize(kind, index) + elength) % TWO32 + HDR_SIZE + SARMAG
  }

  function Offset(kind: MapKind, thin: bool, ms: seq<Member>, index: seq<Entry>, elength: nat, i: nat): nat
    requires i < |index| && index[i].member < |ms|
  {
    Predicted(kind, thin, ms, FirstMember(kind, index, elength), index[i].member)
  }

  /** Every member with a symbol starts below 2^32. */
  predicate AllBelow(kind: MapKind, thin: bool, ms: seq<Member>, index: seq<Entry>, first: nat)
    requires ValidMap(index, |ms|)
  {
    forall i :: 0 <= i < |index| ==> Predicted(kind, thin, ms, first, index[i].member) < TWO32
  }

  /** Every offset of the index fits in the four bytes of the 32-bit formats. */
  predicate OffsetsFit(kind: MapKind, thin: bool, ms: seq<Member>, index: seq<Entry>, elength: nat)
    requires ValidMap(index, |ms|)
  {
    AllBelow(kind, thin, ms, index, FirstMember(kind, index, elength))
  }

  /** The format that a writer of 32-bit maps ends up with. */
  function ChosenKind(cfg: Config, ms: seq<Member>, index: seq<Entry>, elength: nat): MapKind
    requires ValidMap(index, |ms|)
  {
    var wanted := if cfg.style.Coff? then CoffMap else BsdMap;
    if OffsetsFit(wanted, cfg.thin, ms, index, elength) then wanted else Map64
  }

  // ---------------------------------------------------------------------------------------
  // The formats
  // ---------------------------------------------------------------------------------------

  function Width(kind: MapKind): nat { if kind.Map64? then 8 else 4 }

  /** One more than the largest offset a format can hold. */
  function Limit(kind: MapKind): nat { if kind.Map64? then TWO64 else TWO32 }

  /** One symbol of the index, without its name. */
  function Slot(kind: MapKind, big: bool, e: Entry, off: nat): (r: bytes)
    requires off < Limit(kind) && e.nameIndex < TWO32
    ensures |r| == if kind.CoffMap? then 4 else 8
  {
    match kind
    case BsdMap => Put32(big, e.nameIndex) + Put32(big, off)
    case CoffMap => Put32(true, off)
    case Map64 => Put64(true, off)
  }

  predicate SlotsFit(kind: MapKind, index: seq<Entry>, offs: seq<nat>) {
    && |offs| == |index|
    && forall i :: 0 <= i < |index| ==> offs[i] < Limit(kind) && index[i].nameIndex < TWO32
  }

  function SlotParts(kind: MapKind, big: bool, index: seq<Entry>, offs: seq<nat>): (r: seq<bytes>)
    requires SlotsFit(kind, index, offs)
    ensures |r| == |index|
    ensures forall i :: 0 <= i < |index| ==> r[i] == Slot(kind, big, index[i], offs[i])
  {
    seq(|index|, i requires 0 <= i < |index| => Slot(kind, big, index[i], offs[i]))
  }

  function Slots(kind: MapKind, big: bool, index: seq<Entry>, offs: seq<nat>): bytes
    requires SlotsFit(kind, index, offs)
  {
    Concat(SlotParts(kind, big, index, offs), |index|)
  }

  lemma {:induction false} EqualParts(parts: seq<bytes>, w: nat, k: nat)
    requires k <= |parts| && forall i :: 0 <= i < k ==> |parts[i]| == w
    ensures |Concat(parts, k)| == w * k
  {
    if k > 0 { EqualParts(parts, w, k - 1); }
  }

  function SlotSize(kind: MapKind): nat { if kind.CoffMap? then 4 else 8 }

  lemma SlotsLength(kind: MapKind, big: bool, index: seq<Entry>, offs: seq<nat>)
    requires SlotsFit(kind, index, offs)
    ensures |Slots(kind, big, index, offs)| == if kind.CoffMap? then 4 * |index| else 8 * |index|
  {
    EqualParts(SlotParts(kind, big, index, offs), SlotSize(kind), |index|);
  }

  function MapName(kind: MapKind): (r: bytes)
    ensures |r| == 16
  {
    match kind
    case BsdMap => "__.SYMDEF       "
    case CoffMap => "/               "
    case Map64 => "/SYM64/         "
  }

  /** What stands before the slots: their number, or their size in bytes. */
  function CountField(kind: MapKind, big: bool, n: nat): (r: bytes)
    requires 8 * n < TWO32
    ensures |r| == Width(kind)
  {
    match kind
    case BsdMap => Put32(big, 8 * n)
    case CoffMap => Put32(true, n)
    case Map64 => Put64(true, n)
  }

  function StringField(kind: MapKind, big: bool, size: nat): (r: bytes)
    requires size < TWO32
  {
    if kind.BsdMap? then Put32(big, size) else []
  }

  /** The bytes that round the index up to the alignment of its format. */
  function Padding(kind: MapKind, index: seq<Entry>): nat {
    var n := |Strings(index)|;
    match kind
    case BsdMap => EvenUp(n) - n
    case CoffMap => EvenUp(4 * |index| + 4 + n) - (4 * |index| + 4 + n)
    case Map64 => AlignUp8(8 * |index| + 8 + n) - (8 * |index| + 8 + n)
  }

  /** The index behind its header. */
  function MapBody(kind: MapKind, big: bool, index: seq<Entry>, offs: seq<nat>): (r: bytes)
    requires MapFits(index, 0) && SlotsFit(kind, index, offs)
  {
    CountField(kind, big, |index|) + Slots(kind, big, index, offs)
    + StringField(kind, big, StringSize(kind, index)) + Strings(index) + Fill('\0', Padding(kind, index))
  }

  lemma MapBodyLength(kind: MapKind, big: bool, index: seq<Entry>, offs: seq<nat>)
    requires MapFits(index, 0) && SlotsFit(kind, index, offs)
    ensures |MapBody(kind, big, index, offs)| == MapSize(kind, index)
  {
    SlotsLength(kind, big, index, offs);
  }

  function MapHeader(kind: MapKind, meta: bytes, index: seq<Entry>): (h: Hdr)
    requires MapFits(index, 0) && |meta| == 32
    ensures WellFormed(h) && h.fmag == ARFMAG && h.name == MapName(kind)
    ensures ScanUnsigned(h.size) == Some(MapSize(kind, index))
  {
    SizeFieldRoundTrip(MapSize(kind, index));
    TenDigits();
    Hdr(MapName(kind), meta, SizePad(MapSize(kind, index)).value, ARFMAG)
  }

  lemma TenDigits()
    ensures TWO32 + 1 < TenTo(10) < TWO63
  {
    assert TenTo(10) == 100 * TenTo(8) && TenTo(8) == 10000 * TenTo(4) && TenTo(4) == 10000;
  }

  function Offsets(kind: MapKind, thin: bool, ms: seq<Member>, index: seq<Entry>, elength: nat): (r: seq<nat>)
    requires ValidMap(index, |ms|)
    ensures |r| == |index|
    ensures forall i :: 0 <= i < |index| ==> r[i] == Offset(kind, thin, ms, index, elength, i)
  {
    seq(|index|, i requires 0 <= i < |index| => Offset(kind, thin, ms, index, elength, i))
  }

  /** The whole index, a member of the archive like any other. */
  function MapMember(kind: MapKind, cfg: Config, meta: bytes, ms: seq<Member>, index: seq<Entry>,
                     elength: nat): (r: bytes)
    requires ValidMap(index, |ms|) && MapFits(index, elength) && |meta| == 32
    requires SlotsFit(kind, index, Offsets(kind, cfg.thin, ms, index, elength))
  {
    Encode(MapHeader(kind, meta, index))
    + MapBody(kind, cfg.big, index, Offsets(kind, cfg.thin, ms, index, elength))
  }
}
