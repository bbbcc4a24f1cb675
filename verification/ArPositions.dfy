/** Prediction and reality: the positions that the index stores against the positions at which
    the member loop later puts the headers. */
module ArPositions {
  import opened Bytes
  import opened ArHeader
  import opened ArNames
  import opened ArIndex
  import opened ArIndexWriter
  import opened ArWrite

  /** Where the header of member `k` really is, when the first header is at `base`. */
  function HeaderPos(cfg: Config, ms: seq<Member>, base: nat, k: nat): nat
    requires k <= |ms| && AllWritable(cfg, ms)
  {
    base + |Concat(MemberParts(cfg, ms), k)|
  }

  /** Where the members start in an archive file. */
  function Base(cfg: Config, meta: bytes, kept: seq<Member>, index: Index, table: bytes): nat
    requires |meta| == 32 && IndexFits(cfg, kept, index, table) && TableWritable(table)
  {
    SARMAG + |IndexMember(cfg, meta, kept, index, table)| + |TableMember(cfg, table)|
  }

  /** The assertion in `_bfd_bsd44_write_ar_hdr`: the extra size is the padded name length. */
  predicate ExtraAsserted(cfg: Config, m: Member)
    requires ValidMember(m)
  {
    Extended(cfg, m) ==> m.extra == RoundUp4(|m.name|)
  }

  /** The index writer counts this member at the size at which it is written.  The COFF and the
      64-bit writer forget a name behind the header; the BSD writer counts contents that a thin
      archive does not hold, and an extra size that a plain header writer does not write. */
  predicate Accounted(kind: MapKind, cfg: Config, m: Member)
    requires ValidMember(m)
  {
    if !kind.BsdMap? then Extended(cfg, m) ==> m.name == []
    else if Extended(cfg, m) then cfg.thin ==> m.contents == []
    else if cfg.thin then m.contents == [] && m.extra == 0
    else m.extra == 0 || (m.extra == 1 && |m.contents| % 2 == 1)
  }

  /** From an even position the writer advances by the header and the counted size, made even. */
  lemma BehindEven(kind: MapKind, thin: bool, m: Member, p: nat)
    requires p % 2 == 0
    ensures Behind(kind, thin, m, p) == p + HDR_SIZE + EvenUp(Counted(kind, thin, m))
    ensures Behind(kind, thin, m, p) % 2 == 0
  {
  }

  /** A member that is not accounted for moves every later prediction, always in the same
      direction for one format. */
  lemma SizeAgrees(kind: MapKind, cfg: Config, m: Member)
    requires ValidMember(m) && Writable(cfg, m) && ExtraAsserted(cfg, m)
    ensures var counted := HDR_SIZE + EvenUp(Counted(kind, cfg.thin, m));
            && (Accounted(kind, cfg, m) <==> counted == |MemberBytes(cfg, m)|)
            && (kind.BsdMap? ==> counted >= |MemberBytes(cfg, m)|)
            && (!kind.BsdMap? ==> counted <= |MemberBytes(cfg, m)|)
  {
    MemberLength(cfg, m);
    if Extended(cfg, m) {
      assert m.name != [] ==> RoundUp4(|m.name|) > 0;
      EvenUpSum(|m.contents|, (|m.name| + 3) / 4);
    }
  }

  lemma EvenUpSum(a: nat, q: nat)
    ensures EvenUp(a + q * 4) == EvenUp(a) + q * 4
  {
    assert a + q * 4 == a + 2 * (2 * q);
    SameParity(a, 2 * q);
  }

  lemma SameParity(a: nat, n: nat)
    ensures (a + 2 * n) % 2 == a % 2
  {
  }

  predicate AllAccounted(kind: MapKind, cfg: Config, ms: seq<Member>, k: nat)
    requires k <= |ms| && ValidMembers(ms)
  {
    forall j :: 0 <= j < k ==> Accounted(kind, cfg, ms[j])
  }

  predicate AllAsserted(cfg: Config, ms: seq<Member>)
    requires ValidMembers(ms)
  {
    forall i :: 0 <= i < |ms| ==> ExtraAsserted(cfg, ms[i])
  }

  /** The prediction for member `k` is right exactly when all members before it are accounted
      for; errors never cancel. */
  lemma {:induction false} PredictionExact(kind: MapKind, cfg: Config, ms: seq<Member>, base: nat, k: nat)
    requires ValidMembers(ms) && AllWritable(cfg, ms) && AllAsserted(cfg, ms) && k <= |ms| && base % 2 == 0
    ensures Exact(kind, cfg, ms, base, k)
  {
    if k == 0 {
    } else {
      var j := k - 1;
      PredictionExact(kind, cfg, ms, base, j);
      ExactStep(kind, cfg, ms, base, j);
    }
  }

  /** The prediction is even, right exactly when all earlier members are accounted for, and
      otherwise wrong on the side that the format prescribes. */
  ghost predicate Exact(kind: MapKind, cfg: Config, ms: seq<Member>, base: nat, k: nat)
    requires ValidMembers(ms) && AllWritable(cfg, ms) && k <= |ms|
  {
    var p, h := Predicted(kind, cfg.thin, ms, base, k), HeaderPos(cfg, ms, base, k);
    && p % 2 == 0
    && (p == h <==> AllAccounted(kind, cfg, ms, k))
    && (if kind.BsdMap? then p >= h else p <= h)
  }

  lemma ExactStep(kind: MapKind, cfg: Config, ms: seq<Member>, base: nat, k: nat)
    requires ValidMembers(ms) && AllWritable(cfg, ms) && AllAsserted(cfg, ms) && k < |ms|
    requires Exact(kind, cfg, ms, base, k)
    ensures Exact(kind, cfg, ms, base, k + 1)
  {
    PositionSteps(kind, cfg, ms, base, k);
    SizeAgrees(kind, cfg, ms[k]);
    AccountedStep(kind, cfg, ms, k);
    ErrorsAddUp(Predicted(kind, cfg.thin, ms, base, k), HeaderPos(cfg, ms, base, k),
                HDR_SIZE + EvenUp(Counted(kind, cfg.thin, ms[k])), |MemberBytes(cfg, ms[k])|,
                AllAccounted(kind, cfg, ms, k), Accounted(kind, cfg, ms[k]), kind.BsdMap?);
  }

  lemma ErrorsAddUp(p: int, h: int, counted: int, written: int, before: bool, here: bool, up: bool)
    requires (p == h <==> before) && (counted == written <==> here)
    requires if up then p >= h && counted >= written else p <= h && counted <= written
    ensures p + counted == h + written <==> before && here
    ensures if up then p + counted >= h + written else p + counted <= h + written
  {
  }

  lemma AccountedStep(kind: MapKind, cfg: Config, ms: seq<Member>, k: nat)
    requires k < |ms| && ValidMembers(ms)
    ensures AllAccounted(kind, cfg, ms, k + 1) <==> AllAccounted(kind, cfg, ms, k) && Accounted(kind, cfg, ms[k])
  {
  }

  /** Both positions, from one member to the next. */
  lemma PositionSteps(kind: MapKind, cfg: Config, ms: seq<Member>, base: nat, k: nat)
    requires ValidMembers(ms) && AllWritable(cfg, ms) && k < |ms|
    requires Predicted(kind, cfg.thin, ms, base, k) % 2 == 0
    ensures Predicted(kind, cfg.thin, ms, base, k + 1)
            == Predicted(kind, cfg.thin, ms, base, k) + HDR_SIZE + EvenUp(Counted(kind, cfg.thin, ms[k]))
    ensures Predicted(kind, cfg.thin, ms, base, k + 1) % 2 == 0
    ensures HeaderPos(cfg, ms, base, k + 1) == HeaderPos(cfg, ms, base, k) + |MemberBytes(cfg, ms[k])|
  {
    BehindEven(kind, cfg.thin, ms[k], Predicted(kind, cfg.thin, ms, base, k));
  }

  /** By how much the index writer counts a member too large: what it counts, less the name that is
      written behind the header and the contents that are written. */
  function CountError(kind: MapKind, cfg: Config, m: Member): int
    requires ValidMember(m)
  {
    EvenUp(Counted(kind, cfg.thin, m))
    - (if Extended(cfg, m) then RoundUp4(|m.name|) else 0)
    - (if cfg.thin then 0 else EvenUp(|m.contents|))
  }

  function ErrorUpTo(kind: MapKind, cfg: Config, ms: seq<Member>, k: nat): int
    requires k <= |ms| && ValidMembers(ms)
  {
    if k == 0 then 0 else ErrorUpTo(kind, cfg, ms, k - 1) + CountError(kind, cfg, ms[k - 1])
  }

  /** The prediction for member `k` is off by exactly the sum of the errors before it, whatever extra
      sizes the members claim. */
  lemma {:induction false} PredictionError(kind: MapKind, cfg: Config, ms: seq<Member>, base: nat, k: nat)
    requires ValidMembers(ms) && AllWritable(cfg, ms) && k <= |ms| && base % 2 == 0
    ensures Predicted(kind, cfg.thin, ms, base, k) % 2 == 0
    ensures Predicted(kind, cfg.thin, ms, base, k) == HeaderPos(cfg, ms, base, k) + ErrorUpTo(kind, cfg, ms, k)
  {
    hide MemberBytes, CountError, EvenUp, Behind, Counted;
    if k > 0 {
      PredictionError(kind, cfg, ms, base, k - 1);
      PositionSteps(kind, cfg, ms, base, k - 1);
      OneError(kind, cfg, ms[k - 1]);
    }
  }

  lemma OneError(kind: MapKind, cfg: Config, m: Member)
    requires ValidMember(m) && Writable(cfg, m)
    ensures HDR_SIZE + EvenUp(Counted(kind, cfg.thin, m)) == |MemberBytes(cfg, m)| + CountError(kind, cfg, m)
  {
    hide EvenUp, Counted, MemberBytes, ExtraBytes, DataBytes, RoundUp4;
    MemberLength(cfg, m);
  }

  /** The first header is where the index writer expects it. */
  lemma FirstIsBase(cfg: Config, meta: bytes, kept: seq<Member>, entries: seq<Entry>, table: bytes)
    requires |meta| == 32 && IndexFits(cfg, kept, Indexed(entries), table) && TableWritable(table)
    ensures FirstMember(KindOf(cfg, kept, entries, table), entries, TableLength(table))
            == Base(cfg, meta, kept, Indexed(entries), table)
  {
    var kind := KindOf(cfg, kept, entries, table);
    TableLengthExact(cfg, table);
    LayoutFits(kind, entries, TableLength(table));
    MapBodyLength(kind, cfg.big, entries, Offsets(kind, cfg.thin, kept, entries, TableLength(table)));
  }

  lemma LayoutFits(kind: MapKind, entries: seq<Entry>, elength: nat)
    requires MapFits(entries, elength) && elength % 2 == 0
    ensures FirstMember(kind, entries, elength) == MapSize(kind, entries) + elength + HDR_SIZE + SARMAG
    ensures FirstMember(kind, entries, elength) % 2 == 0
  {
    hide MapSize, Strings;
    MapSizeBound(kind, entries);
    EvenSum(MapSize(kind, entries), elength);
  }

  lemma MapSizeBound(kind: MapKind, entries: seq<Entry>)
    ensures MapSize(kind, entries) <= 8 * |entries| + |Strings(entries)| + 24 && MapSize(kind, entries) % 2 == 0
  {
    hide Strings, EvenUp, AlignUp8;
    match kind
    case BsdMap => BsdEven(|entries|, EvenUp(|Strings(entries)|));
    case CoffMap =>
    case Map64 => AlignEven(8 * |entries| + 8 + |Strings(entries)|);
  }

  lemma BsdEven(n: nat, m: nat)
    requires m % 2 == 0
    ensures (8 * n + m + 8) % 2 == 0
  {
    var h := m / 2;
    assert 8 * n + m + 8 == 2 * (4 * n + h + 4);
    TwiceEven(4 * n + h + 4);
  }

  lemma TwiceEven(k: nat)
    ensures (2 * k) % 2 == 0
  {
  }

  lemma AlignEven(n: nat)
    ensures AlignUp8(n) % 2 == 0 && AlignUp8(n) <= n + 7
  {
    var q := (n + 7) / 8;
    assert AlignUp8(n) == 2 * (4 * q);
  }

  lemma EvenSum(a: nat, b: nat)
    requires a % 2 == 0 && b % 2 == 0
    ensures (a + b + HDR_SIZE + SARMAG) % 2 == 0
  {
  }

  /** The offset stored for symbol `i` is the position of the header of its member. */
  predicate OffsetRight(cfg: Config, meta: bytes, kept: seq<Member>, entries: seq<Entry>, table: bytes, i: nat)
    requires |meta| == 32 && IndexFits(cfg, kept, Indexed(entries), table) && TableWritable(table)
    requires AllWritable(cfg, kept) && i < |entries|
  {
    Offset(KindOf(cfg, kept, entries, table), cfg.thin, kept, entries, TableLength(table), i)
    == HeaderPos(cfg, kept, Base(cfg, meta, kept, Indexed(entries), table), entries[i].member)
  }

  /** One symbol of any archive: its offset is off by exactly the sum of the errors of the members in
      front of the member that defines it, so it is right if and only if that sum is zero. */
  lemma OffsetError(cfg: Config, meta: bytes, kept: seq<Member>, entries: seq<Entry>, table: bytes, i: nat)
    requires |meta| == 32 && IndexFits(cfg, kept, Indexed(entries), table) && TableWritable(table)
    requires ValidMembers(kept) && AllWritable(cfg, kept) && i < |entries|
    ensures var kind := KindOf(cfg, kept, entries, table);
            && Offset(kind, cfg.thin, kept, entries, TableLength(table), i)
               == HeaderPos(cfg, kept, Base(cfg, meta, kept, Indexed(entries), table), entries[i].member)
                  + ErrorUpTo(kind, cfg, kept, entries[i].member)
            && (OffsetRight(cfg, meta, kept, entries, table, i) <==> ErrorUpTo(kind, cfg, kept, entries[i].member) == 0)
  {
    hide MapFits, ArchiveFits, Concat, MapSize, TableMember, IndexMember, TableLength, Writable, ErrorUpTo, HeaderPos;
    hide Base;
    var kind := KindOf(cfg, kept, entries, table);
    FirstIsBase(cfg, meta, kept, entries, table);
    TableLengthExact(cfg, table);
    LayoutFits(kind, entries, TableLength(table));
    PredictionError(kind, cfg, kept, Base(cfg, meta, kept, Indexed(entries), table), entries[i].member);
  }

  /** One symbol: its offset is right if and only if every member in front of the member that
      defines it is accounted for. */
  lemma OffsetExact(cfg: Config, meta: bytes, kept: seq<Member>, entries: seq<Entry>, table: bytes, i: nat)
    requires |meta| == 32 && IndexFits(cfg, kept, Indexed(entries), table) && TableWritable(table)
    requires ValidMembers(kept) && AllWritable(cfg, kept) && AllAsserted(cfg, kept) && i < |entries|
    ensures OffsetRight(cfg, meta, kept, entries, table, i)
            <==> AllAccounted(KindOf(cfg, kept, entries, table), cfg, kept, entries[i].member)
  {
    hide MapFits, ArchiveFits, Concat, MapSize, TableMember, IndexMember, TableLength, Writable, AllAsserted;
    hide AllAccounted;
    var kind := KindOf(cfg, kept, entries, table);
    FirstIsBase(cfg, meta, kept, entries, table);
    TableLengthExact(cfg, table);
    LayoutFits(kind, entries, TableLength(table));
    PredictionExact(kind, cfg, kept, Base(cfg, meta, kept, Indexed(entries), table), entries[i].member);
  }

  /** Index correctness.  Every offset of the index is the position of the header of the member
      that defines the symbol, if and only if every member in front of a member with symbols is
      accounted for. */
  lemma IndexExact(cfg: Config, meta: bytes, kept: seq<Member>, entries: seq<Entry>, table: bytes)
    requires |meta| == 32 && IndexFits(cfg, kept, Indexed(entries), table) && TableWritable(table)
    requires ValidMembers(kept) && AllWritable(cfg, kept) && AllAsserted(cfg, kept)
    ensures (forall i :: 0 <= i < |entries| ==> OffsetRight(cfg, meta, kept, entries, table, i))
            <==>
            (forall i :: 0 <= i < |entries| ==>
               AllAccounted(KindOf(cfg, kept, entries, table), cfg, kept, entries[i].member))
  {
    hide MapFits, ArchiveFits, OrderedUpTo, KindOf, Base, OffsetRight, HeaderPos, AllAccounted, TableLength, Writable;
    hide AllAsserted;
    forall i | 0 <= i < |entries|
      ensures OffsetRight(cfg, meta, kept, entries, table, i)
              <==> AllAccounted(KindOf(cfg, kept, entries, table), cfg, kept, entries[i].member)
    {
      OffsetExact(cfg, meta, kept, entries, table, i);
    }
  }

  lemma MemberInFile(cfg: Config, meta: bytes, kept: seq<Member>, index: Index, table: bytes, k: nat)
    requires |meta| == 32 && IndexFits(cfg, kept, index, table) && TableWritable(table)
    requires ValidMembers(kept) && AllWritable(cfg, kept) && k < |kept|
    ensures var file := Image(cfg, meta, kept, index, table);
            var base := Base(cfg, meta, kept, index, table);
            && HeaderPos(cfg, kept, base, k + 1) == HeaderPos(cfg, kept, base, k) + |MemberBytes(cfg, kept[k])|
            && HeaderPos(cfg, kept, base, k + 1) <= |file|
            && file[HeaderPos(cfg, kept, base, k)..HeaderPos(cfg, kept, base, k + 1)] == MemberBytes(cfg, kept[k])
  {
    hide MemberBytes, IndexMember, TableMember, Magic, Concat;
    var file := Image(cfg, meta, kept, index, table);
    var front := Magic(cfg) + IndexMember(cfg, meta, kept, index, table) + TableMember(cfg, table);
    var flat := Flat(cfg, kept);
    assert file == front + flat;
    var parts := MemberParts(cfg, kept);
    ConcatSlice(parts, k, |kept|);
    var a, b := |Concat(parts, k)|, |Concat(parts, k + 1)|;
    SliceBehind(front, flat, a, b);
  }

  // ---------------------------------------------------------------------------------------
  // What goes wrong
  // ---------------------------------------------------------------------------------------

  /** A 64-bit index, which an archive gets when an offset does not fit in 32 bits, points before the
      header of its member if a name stands behind an earlier header. */
  lemma Fallback64Wrong(cfg: Config, meta: bytes, kept: seq<Member>, entries: seq<Entry>, table: bytes, i: nat, j: nat)
    requires |meta| == 32 && IndexFits(cfg, kept, Indexed(entries), table) && TableWritable(table)
    requires ValidMembers(kept) && AllWritable(cfg, kept) && AllAsserted(cfg, kept) && i < |entries|
    requires KindOf(cfg, kept, entries, table) == Map64
    requires j < entries[i].member && Extended(cfg, kept[j]) && kept[j].name != []
    ensures !OffsetRight(cfg, meta, kept, entries, table, i)
    ensures Offset(Map64, cfg.thin, kept, entries, TableLength(table), i)
            < HeaderPos(cfg, kept, Base(cfg, meta, kept, Indexed(entries), table), entries[i].member)
  {
    hide MapFits, ArchiveFits, KindOf, Base, TableLength, HeaderPos, Offset, Writable, Extended;
    OffsetExact(cfg, meta, kept, entries, table, i);
    assert !Accounted(Map64, cfg, kept[j]);
    OffsetSide(cfg, meta, kept, entries, table, i);
  }

  /** In a thin archive a BSD index points behind the header of its member if an earlier member has
      contents, which it counts although the archive does not hold them. */
  lemma ThinBsdWrong(cfg: Config, meta: bytes, kept: seq<Member>, entries: seq<Entry>, table: bytes, i: nat, j: nat)
    requires |meta| == 32 && IndexFits(cfg, kept, Indexed(entries), table) && TableWritable(table)
    requires ValidMembers(kept) && AllWritable(cfg, kept) && AllAsserted(cfg, kept) && i < |entries|
    requires cfg.thin && KindOf(cfg, kept, entries, table) == BsdMap
    requires j < entries[i].member && kept[j].contents != []
    ensures !OffsetRight(cfg, meta, kept, entries, table, i)
    ensures Offset(BsdMap, cfg.thin, kept, entries, TableLength(table), i)
            > HeaderPos(cfg, kept, Base(cfg, meta, kept, Indexed(entries), table), entries[i].member)
  {
    hide MapFits, ArchiveFits, KindOf, Base, TableLength, HeaderPos, Offset, Writable, Extended;
    OffsetExact(cfg, meta, kept, entries, table, i);
    assert !Accounted(BsdMap, cfg, kept[j]);
    OffsetSide(cfg, meta, kept, entries, table, i);
  }

  /** A wrong offset is wrong on the side that the format prescribes. */
  lemma OffsetSide(cfg: Config, meta: bytes, kept: seq<Member>, entries: seq<Entry>, table: bytes, i: nat)
    requires |meta| == 32 && IndexFits(cfg, kept, Indexed(entries), table) && TableWritable(table)
    requires ValidMembers(kept) && AllWritable(cfg, kept) && AllAsserted(cfg, kept) && i < |entries|
    ensures var kind := KindOf(cfg, kept, entries, table);
            var offset := Offset(kind, cfg.thin, kept, entries, TableLength(table), i);
            var pos := HeaderPos(cfg, kept, Base(cfg, meta, kept, Indexed(entries), table), entries[i].member);
            if kind.BsdMap? then offset >= pos else offset <= pos
  {
    hide MapFits, ArchiveFits, Concat, MapSize, TableMember, IndexMember, TableLength, Writable, AllAsserted;
    hide AllAccounted;
    var kind := KindOf(cfg, kept, entries, table);
    FirstIsBase(cfg, meta, kept, entries, table);
    TableLengthExact(cfg, table);
    LayoutFits(kind, entries, TableLength(table));
    PredictionExact(kind, cfg, kept, Base(cfg, meta, kept, Indexed(entries), table), entries[i].member);
  }

  /** A member from the file system whose name and size stand in its header as they are. */
  function Simple(name: bytes, contents: bytes, symbols: seq<Sym>): (m: Member)
    ensures ValidMember(m)
  {
    Member(name, name, None, contents,
           Hdr(SpacePad(name, 16), Fill(' ', 32), SpacePad(Decimal(|contents|), 10), ARFMAG),
           0, 0, symbols != [], symbols)
  }

  const MAIN: Sym := Sym("f", true, false, false, false, false, false)

  /** An index with the one symbol `f`. */
  lemma OneEntry(member: nat, members: nat)
    requires member < members
    ensures var entries := [Entry("f", member, 0)];
            && ValidMap(entries, members) && |Strings(entries)| == 2 && MapFits(entries, 0)
            && FirstMember(BsdMap, entries, 0) == 86 && FirstMember(Map64, entries, 0) == 92
  {
    AddEntry([], Entry("f", member, 0), members);
    assert [] + [Entry("f", member, 0)] == [Entry("f", member, 0)];
  }

  const THIN_BSD: Config := Config(' ', 16, Bsd44, true, false)
  const THIN_MEMBERS: seq<Member> := [Simple("a", "x", []), Simple("b", [], [MAIN])]

  /** A thin archive of two members that shows the failure: the byte that the first one has elsewhere
      moves the offset of the second one by two. */
  lemma ThinBsdExample(meta: bytes)
    requires |meta| == 32
    ensures var entries := [Entry("f", 1, 0)];
            && IndexFits(THIN_BSD, THIN_MEMBERS, Indexed(entries), []) && AllWritable(THIN_BSD, THIN_MEMBERS)
            && KindOf(THIN_BSD, THIN_MEMBERS, entries, []) == BsdMap
            && Offset(BsdMap, true, THIN_MEMBERS, entries, TableLength([]), 0) == 148
            && HeaderPos(THIN_BSD, THIN_MEMBERS, Base(THIN_BSD, meta, THIN_MEMBERS, Indexed(entries), []), 1) == 146
  {
    hide Decimal, Strings, MemberBytes, IndexMember, TableMember, Base, HeaderPos, FirstMember;
    var entries := [Entry("f", 1, 0)];
    OneEntry(1, 2);
    assert Predicted(BsdMap, true, THIN_MEMBERS, 86, 1) == 148 by {
      assert Predicted(BsdMap, true, THIN_MEMBERS, 86, 0) == 86;
    }
    assert Predicted(Map64, true, THIN_MEMBERS, 92, 2) == 212 by {
      assert Predicted(Map64, true, THIN_MEMBERS, 92, 1) == 152;
    }
    assert ErrorUpTo(BsdMap, THIN_BSD, THIN_MEMBERS, 1) == 2;
    OffsetError(THIN_BSD, meta, THIN_MEMBERS, entries, [], 0);
  }

  const FULL_BSD: Config := Config(' ', 16, Bsd44, false, false)
  const LONG_NAME: bytes := "a_name_of_twenty_let"
  /** The name stands behind the header, and five billion bytes come before the last member. */
  const LARGE_MEMBERS: seq<Member> :=
    [Simple("#1/20", [], []).(name := LONG_NAME, file := LONG_NAME, extra := 20),
     Simple("b", Fill('x', 5_000_000_000), []), Simple("c", [], [MAIN])]

  /** A full archive of three members that gets a 64-bit index: the offset of the last one is too small by
      the length of the name behind the first header. */
  lemma Fallback64Example(meta: bytes)
    requires |meta| == 32
    ensures var entries := [Entry("f", 2, 0)];
            && IndexFits(FULL_BSD, LARGE_MEMBERS, Indexed(entries), []) && AllWritable(FULL_BSD, LARGE_MEMBERS)
            && KindOf(FULL_BSD, LARGE_MEMBERS, entries, []) == Map64
            && Offset(Map64, false, LARGE_MEMBERS, entries, TableLength([]), 0) == 5_000_000_212
            && HeaderPos(FULL_BSD, LARGE_MEMBERS, Base(FULL_BSD, meta, LARGE_MEMBERS, Indexed(entries), []), 2)
               == 5_000_000_232
  {
    hide Decimal, Strings, MemberBytes, IndexMember, TableMember, Base, HeaderPos, FirstMember;
    var entries := [Entry("f", 2, 0)];
    OneEntry(2, 3);
    assert Predicted(BsdMap, false, LARGE_MEMBERS, 86, 2) >= TWO32;
    assert Predicted(Map64, false, LARGE_MEMBERS, 92, 1) == 152;
    assert Predicted(Map64, false, LARGE_MEMBERS, 92, 2) == 5_000_000_212;
    assert Predicted(Map64, false, LARGE_MEMBERS, 92, 3) == 5_000_000_272;
    assert Writable(FULL_BSD, LARGE_MEMBERS[0]) by { SizeFieldRoundTrip(20); }
    assert ErrorUpTo(Map64, FULL_BSD, LARGE_MEMBERS, 1) == -20;
    assert ErrorUpTo(Map64, FULL_BSD, LARGE_MEMBERS, 2) == -20;
    OffsetError(FULL_BSD, meta, LARGE_MEMBERS, entries, [], 0);
  }
}
