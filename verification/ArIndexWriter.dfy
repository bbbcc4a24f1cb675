/** The writers of the three index formats.  Each walks the list of members beside the index
    and keeps a running file position; the 32-bit writers walk it twice. */
module ArIndexWriter {
  import opened Bytes
  import opened ArHeader
  import opened ArNames
  import opened ArIndex

  /** `count` separates the entries of the members before `current` from the others. */
  ghost predicate Splits(index: seq<Entry>, count: nat, current: nat) {
    && count <= |index|
    && (forall i :: 0 <= i < count ==> index[i].member < current)
    && (forall i :: count <= i < |index| ==> index[i].member >= current)
  }

  /** The members of the archive stay below the largest file position. */
  predicate ArchiveFits(thin: bool, ms: seq<Member>, index: seq<Entry>, elength: nat) {
    Predicted(Map64, thin, ms, FirstMember(Map64, index, elength), |ms|) < TWO63
  }

  lemma {:induction false} PredictedGrows(kind: MapKind, thin: bool, ms: seq<Member>, first: nat, j: nat, k: nat)
    requires j <= k <= |ms|
    ensures Predicted(kind, thin, ms, first, j) <= Predicted(kind, thin, ms, first, k)
    decreases k - j
  {
    if j < k { PredictedGrows(kind, thin, ms, first, j, k - 1); }
  }

  /** Behind the last entry of a member come the entries of later members. */
  lemma SplitsNext(index: seq<Entry>, count0: nat, count: nat, current: nat)
    requires OrderedUpTo(index, |index|) && Splits(index, count0, current) && count0 <= count <= |index|
    requires forall i :: count0 <= i < count ==> index[i].member == current
    requires count < |index| ==> index[count].member != current
    ensures Splits(index, count, current + 1)
  {
    forall i | count <= i < |index|
      ensures index[i].member >= current + 1
    {
      OrderedAt(index, |index|, count, i);
    }
  }

  /** Behind the last member no entry is left. */
  lemma NoneLeft(index: seq<Entry>, count: nat, members: nat)
    requires ValidMap(index, members) && count < |index|
    ensures !Splits(index, count, members)
  {
    assert index[count].member < members;
  }

  lemma LaterEntries(index: seq<Entry>, count: nat)
    requires OrderedUpTo(index, |index|) && count < |index|
    ensures forall i :: count <= i < |index| ==> index[i].member >= index[count].member
  {
    forall i | count <= i < |index|
      ensures index[i].member >= index[count].member
    {
      OrderedAt(index, |index|, count, i);
    }
  }

  /** The conversion of a file position to a 32-bit unsigned integer. */
  method ToUnsigned(n: nat) returns (r: nat)
    ensures r < TWO32 && (r == n <==> n < TWO32)
  {
    r := n % TWO32;
  }

  /** An index whose offsets fit has slots that fit. */
  lemma OffsetsFillSlots(kind: MapKind, thin: bool, ms: seq<Member>, index: seq<Entry>, elength: nat)
    requires ValidMap(index, |ms|) && MapFits(index, elength)
    requires if kind.Map64? then ArchiveFits(thin, ms, index, elength)
             else OffsetsFit(kind, thin, ms, index, elength)
    ensures SlotsFit(kind, index, Offsets(kind, thin, ms, index, elength))
  {
    forall i | 0 <= i < |index|
      ensures index[i].nameIndex < TWO32 && Offset(kind, thin, ms, index, elength, i) < Limit(kind)
    {
      OrderedAt(index, |index|, i, i);
      ConcatGrows(NameParts(index), i, |index|);
      PredictedGrows(kind, thin, ms, FirstMember(kind, index, elength), index[i].member, |ms|);
    }
  }

  // ---------------------------------------------------------------------------------------
  // COFF
  // ---------------------------------------------------------------------------------------

  /** The running position behind member `m`. */
  method CoffAdvance(thin: bool, m: Member, at: nat) returns (next: nat)
    ensures next == Behind(CoffMap, thin, m, at)
  {
    next := at + HDR_SIZE;
    if !thin {
      next := next + |m.contents|;
      next := next + next % 2;
    }
  }

  /** The entries of member `current`, from `count` on, checked against the 32-bit limit. */
  method CheckCoffMember(index: seq<Entry>, count0: nat, current: nat, at: nat) returns (fits: bool, count: nat)
    requires Splits(index, count0, current)
    requires OrderedUpTo(index, |index|)
    ensures fits ==> Splits(index, count, current + 1) && count0 <= count && (count0 < count ==> at < TWO32)
    ensures fits ==> forall i :: count0 <= i < count ==> index[i].member == current
    ensures !fits ==> count < |index| && index[count].member == current && at >= TWO32
  {
    count := count0;
    while count < |index| && index[count].member == current
      invariant count0 <= count <= |index|
      invariant forall i :: count0 <= i < count ==> index[i].member == current
      invariant count0 < count ==> at < TWO32
    {
      var offset := ToUnsigned(at);
      if at != offset {
        return false, count;
      }
      count := count + 1;
    }
    SplitsNext(index, count0, count, current);
    fits := true;
  }

  /** The first pass of `_bfd_coff_write_armap`: does any offset need more than 32 bits? */
  method CheckCoffOffsets(thin: bool, ms: seq<Member>, index: seq<Entry>, first: nat) returns (fits: bool)
    requires ValidMap(index, |ms|)
    ensures fits <==> AllBelow(CoffMap, thin, ms, index, first)
  {
    hide OrderedUpTo, Behind, StringsUpTo;
    var current: nat, count: nat, at := 0, 0, first;
    while current < |ms| && count < |index|
      invariant current <= |ms| && Splits(index, count, current)
      invariant at == Predicted(CoffMap, thin, ms, first, current)
      invariant forall i :: 0 <= i < count ==> Predicted(CoffMap, thin, ms, first, index[i].member) < TWO32
    {
      fits, count := CheckCoffMember(index, count, current, at);
      if !fits {
        return;
      }
      at := CoffAdvance(thin, ms[current], at);
      current := current + 1;
    }
    fits := true;
  }

  /** The offset of member `current` written for each of its entries, unless it does not fit. */
  method WriteCoffMember(out: OutputFile, big: bool, index: seq<Entry>, count0: nat, current: nat, at: nat,
                         ghost offs: seq<nat>, ghost before: bytes)
    returns (ok: bool, count: nat)
    requires Splits(index, count0, current) && SlotsFit(CoffMap, index, offs)
    requires OrderedUpTo(index, |index|)
    requires forall i :: 0 <= i < |index| && index[i].member == current ==> offs[i] == at
    requires out.data == before + Concat(SlotParts(CoffMap, big, index, offs), count0)
    modifies out
    ensures ok && count0 <= count && Splits(index, count, current + 1)
    ensures out.data == before + Concat(SlotParts(CoffMap, big, index, offs), count)
  {
    hide Put32, OrderedUpTo, Concat;
    count := count0;
    while count < |index| && index[count].member == current
      invariant count0 <= count <= |index|
      invariant forall i :: count0 <= i < count ==> index[i].member == current
      invariant out.data == before + Concat(SlotParts(CoffMap, big, index, offs), count)
    {
      var offset := ToUnsigned(at);
      if at != offset {
        return false, count;
      }
      ConcatStep(before, SlotParts(CoffMap, big, index, offs), count);
      out.Write(Put32(true, offset));
      count := count + 1;
    }
    SplitsNext(index, count0, count, current);
    ok := true;
  }

  /** The second pass. */
  method WriteCoffOffsets(out: OutputFile, cfg: Config, ms: seq<Member>, index: seq<Entry>, first: nat,
                          ghost offs: seq<nat>)
    returns (ok: bool)
    requires ValidMap(index, |ms|) && SlotsFit(CoffMap, index, offs)
    requires forall i :: 0 <= i < |index| ==> offs[i] == Predicted(CoffMap, cfg.thin, ms, first, index[i].member)
    modifies out
    ensures ok && out.data == old(out.data) + Slots(CoffMap, cfg.big, index, offs)
  {
    hide OrderedUpTo, Behind, StringsUpTo, Concat, Slot;
    var current: nat, count: nat, at := 0, 0, first;
    ConcatStart(old(out.data), SlotParts(CoffMap, cfg.big, index, offs));
    while current < |ms| && count < |index|
      invariant current <= |ms| && Splits(index, count, current)
      invariant at == Predicted(CoffMap, cfg.thin, ms, first, current)
      invariant out.data == old(out.data) + Concat(SlotParts(CoffMap, cfg.big, index, offs), count)
    {
      ok, count := WriteCoffMember(out, cfg.big, index, count, current, at, offs, old(out.data));
      if !ok {
        return;
      }
      at := CoffAdvance(cfg.thin, ms[current], at);
      current := current + 1;
    }
    if count < |index| { NoneLeft(index, count, |ms|); }
    ok := true;
  }

  /** The names, one after the other, each with its NUL. */
  method WriteStrings(out: OutputFile, index: seq<Entry>)
    modifies out
    ensures out.data == old(out.data) + Strings(index)
  {
    hide Concat;
    var count := 0;
    ConcatStart(old(out.data), NameParts(index));
    while count < |index|
      invariant 0 <= count <= |index|
      invariant out.data == old(out.data) + Concat(NameParts(index), count)
    {
      ConcatStep(old(out.data), NameParts(index), count);
      out.Write(index[count].name + "\0");
      count := count + 1;
    }
  }

  method WritePad(out: OutputFile, padit: nat)
    requires padit <= 1
    modifies out
    ensures out.data == old(out.data) + Fill('\0', padit)
  {
    if padit == 1 { out.Write("\0"); }
  }

  /** The size of the index and the position of the first member, as the COFF writer adds them up. */
  method CoffLayout(index: seq<Entry>, elength: nat) returns (padit: nat, first: nat)
    ensures padit == Padding(CoffMap, index) && first == FirstMember(CoffMap, index, elength)
  {
    var ranlibsize := |index| * 4 + 4;
    var mapsize := |Strings(index)| + ranlibsize;
    padit := mapsize % 2;
    if padit == 1 { mapsize := mapsize + 1; }
    first := (mapsize + elength) % TWO32 + HDR_SIZE + SARMAG;
  }

  /** `_bfd_coff_write_armap`.  It cannot fail: the second pass meets the offsets that the first
      pass has found to fit, and a 64-bit index is written when one does not. */
  method WriteCoffArmap(out: OutputFile, cfg: Config, meta: bytes, ms: seq<Member>, index: seq<Entry>, elength: nat)
    returns (ok: bool, ghost kind: MapKind)
    requires ValidMap(index, |ms|) && MapFits(index, elength) && |meta| == 32
    requires ArchiveFits(cfg.thin, ms, index, elength)
    modifies out
    ensures ok
    ensures kind == if OffsetsFit(CoffMap, cfg.thin, ms, index, elength) then CoffMap else Map64
    ensures SlotsFit(kind, index, Offsets(kind, cfg.thin, ms, index, elength))
    ensures out.data == old(out.data) + MapMember(kind, cfg, meta, ms, index, elength)
  {
    var padit, first := CoffLayout(index, elength);
    var fits := CheckCoffOffsets(cfg.thin, ms, index, first);
    if !fits {
      Write64Armap(out, cfg, meta, ms, index, elength);
      return true, Map64;
    }
    kind := CoffMap;
    OffsetsFillSlots(CoffMap, cfg.thin, ms, index, elength);
    out.Write(Encode(MapHeader(CoffMap, meta, index)));
    ok := WriteCoffBody(out, cfg, ms, index, padit, first, Offsets(CoffMap, cfg.thin, ms, index, elength));
    Regroup(old(out.data), Encode(MapHeader(CoffMap, meta, index)),
            MapBody(CoffMap, cfg.big, index, Offsets(CoffMap, cfg.thin, ms, index, elength)));
  }

  method WriteCoffBody(out: OutputFile, cfg: Config, ms: seq<Member>, index: seq<Entry>, padit: nat, first: nat,
                       ghost offs: seq<nat>)
    returns (ok: bool)
    requires ValidMap(index, |ms|) && MapFits(index, 0) && SlotsFit(CoffMap, index, offs)
    requires padit == Padding(CoffMap, index)
    requires forall i :: 0 <= i < |index| ==> offs[i] == Predicted(CoffMap, cfg.thin, ms, first, index[i].member)
    modifies out
    ensures ok && out.data == old(out.data) + MapBody(CoffMap, cfg.big, index, offs)
  {
    hide Put32, Concat, OrderedUpTo, EvenUp;
    ghost var before := out.data;
    out.Write(Put32(true, |index|));
    ok := WriteCoffOffsets(out, cfg, ms, index, first, offs);
    WriteStrings(out, index);
    WritePad(out, padit);
    ghost var slots := Slots(CoffMap, cfg.big, index, offs);
    assert before + Put32(true, |index|) + slots + [] == before + Put32(true, |index|) + slots;
    Regroup5(before, Put32(true, |index|), slots, [], Strings(index), Fill('\0', padit));
  }

  // ---------------------------------------------------------------------------------------
  // 64 bits
  // ---------------------------------------------------------------------------------------

  method Write64Member(out: OutputFile, big: bool, index: seq<Entry>, count0: nat, current: nat, at: nat,
                       ghost offs: seq<nat>, ghost before: bytes)
    returns (count: nat)
    requires Splits(index, count0, current) && SlotsFit(Map64, index, offs)
    requires OrderedUpTo(index, |index|)
    requires forall i :: 0 <= i < |index| && index[i].member == current ==> offs[i] == at
    requires out.data == before + Concat(SlotParts(Map64, big, index, offs), count0)
    modifies out
    ensures count0 <= count && Splits(index, count, current + 1)
    ensures out.data == before + Concat(SlotParts(Map64, big, index, offs), count)
  {
    hide Put64, OrderedUpTo, Concat;
    count := count0;
    while count < |index| && index[count].member == current
      invariant count0 <= count <= |index|
      invariant forall i :: count0 <= i < count ==> index[i].member == current
      invariant out.data == before + Concat(SlotParts(Map64, big, index, offs), count)
    {
      ConcatStep(before, SlotParts(Map64, big, index, offs), count);
      out.Write(Put64(true, at));
      count := count + 1;
    }
    SplitsNext(index, count0, count, current);
  }

  method Advance64(thin: bool, m: Member, at: nat) returns (next: nat)
    ensures next == Behind(Map64, thin, m, at)
  {
    next := at + HDR_SIZE;
    if !thin { next := next + |m.contents|; }
    next := next + next % 2;
  }

  method Write64Offsets(out: OutputFile, cfg: Config, ms: seq<Member>, index: seq<Entry>, first: nat,
                        ghost offs: seq<nat>)
    requires ValidMap(index, |ms|) && SlotsFit(Map64, index, offs)
    requires forall i :: 0 <= i < |index| ==> offs[i] == Predicted(Map64, cfg.thin, ms, first, index[i].member)
    modifies out
    ensures out.data == old(out.data) + Slots(Map64, cfg.big, index, offs)
  {
    hide OrderedUpTo, Behind, StringsUpTo, Concat, Slot;
    var current: nat, count: nat, at := 0, 0, first;
    ConcatStart(old(out.data), SlotParts(Map64, cfg.big, index, offs));
    while current < |ms| && count < |index|
      invariant current <= |ms| && Splits(index, count, current)
      invariant at == Predicted(Map64, cfg.thin, ms, first, current)
      invariant out.data == old(out.data) + Concat(SlotParts(Map64, cfg.big, index, offs), count)
    {
      count := Write64Member(out, cfg.big, index, count, current, at, offs, old(out.data));
      at := Advance64(cfg.thin, ms[current], at);
      current := current + 1;
    }
    if count < |index| { NoneLeft(index, count, |ms|); }
  }

  method Layout64(index: seq<Entry>, elength: nat) returns (padding: nat, first: nat)
    ensures padding == Padding(Map64, index) && first == FirstMember(Map64, index, elength)
  {
    var mapsize := |Strings(index)| + (|index| * 8 + 8);
    padding := AlignUp8(mapsize) - mapsize;
    mapsize := mapsize + padding;
    first := (mapsize + elength) % TWO32 + HDR_SIZE + SARMAG;
  }

  method WriteNuls(out: OutputFile, n: nat)
    modifies out
    ensures out.data == old(out.data) + Fill('\0', n)
  {
    var padding := n;
    while padding != 0
      invariant 0 <= padding <= n
      invariant out.data == old(out.data) + Fill('\0', n - padding)
    {
      out.Write("\0");
      padding := padding - 1;
    }
  }

  /** `_bfd_archive_64_bit_write_armap` */
  method Write64Armap(out: OutputFile, cfg: Config, meta: bytes, ms: seq<Member>, index: seq<Entry>, elength: nat)
    requires ValidMap(index, |ms|) && MapFits(index, elength) && |meta| == 32
    requires ArchiveFits(cfg.thin, ms, index, elength)
    modifies out
    ensures SlotsFit(Map64, index, Offsets(Map64, cfg.thin, ms, index, elength))
    ensures out.data == old(out.data) + MapMember(Map64, cfg, meta, ms, index, elength)
  {
    OffsetsFillSlots(Map64, cfg.thin, ms, index, elength);
    var padding, first := Layout64(index, elength);
    out.Write(Encode(MapHeader(Map64, meta, index)));
    Write64Body(out, cfg, ms, index, padding, first, Offsets(Map64, cfg.thin, ms, index, elength));
    Regroup(old(out.data), Encode(MapHeader(Map64, meta, index)),
            MapBody(Map64, cfg.big, index, Offsets(Map64, cfg.thin, ms, index, elength)));
  }

  method Write64Body(out: OutputFile, cfg: Config, ms: seq<Member>, index: seq<Entry>, padding: nat, first: nat,
                     ghost offs: seq<nat>)
    requires ValidMap(index, |ms|) && MapFits(index, 0) && SlotsFit(Map64, index, offs)
    requires padding == Padding(Map64, index)
    requires forall i :: 0 <= i < |index| ==> offs[i] == Predicted(Map64, cfg.thin, ms, first, index[i].member)
    modifies out
    ensures out.data == old(out.data) + MapBody(Map64, cfg.big, index, offs)
  {
    hide Put64, Concat, OrderedUpTo, AlignUp8;
    ghost var before := out.data;
    out.Write(Put64(true, |index|));
    Write64Offsets(out, cfg, ms, index, first, offs);
    WriteStrings(out, index);
    WriteNuls(out, padding);
    ghost var slots := Slots(Map64, cfg.big, index, offs);
    assert before + Put64(true, |index|) + slots + [] == before + Put64(true, |index|) + slots;
    Regroup5(before, Put64(true, |index|), slots, [], Strings(index), Fill('\0', padding));
  }

  // ---------------------------------------------------------------------------------------
  // BSD
  // ---------------------------------------------------------------------------------------

  method BsdAdvanceOne(thin: bool, m: Member, at: nat) returns (next: nat)
    ensures next == Behind(BsdMap, thin, m, at)
  {
    next := at + |m.contents| + m.extra + HDR_SIZE;
    next := next + next % 2;
  }

  /** The walk from member `from` to member `target`. */
  method BsdAdvance(ms: seq<Member>, thin: bool, ghost first: nat, from: nat, target: nat, at0: nat) returns (at: nat)
    requires from < target < |ms| && at0 == Predicted(BsdMap, thin, ms, first, from)
    ensures at == Predicted(BsdMap, thin, ms, first, target)
  {
    at := BsdAdvanceOne(thin, ms[from], at0);
    var current := from + 1;
    while current != target
      invariant from < current <= target
      invariant at == Predicted(BsdMap, thin, ms, first, current)
      decreases target - current
    {
      at := BsdAdvanceOne(thin, ms[current], at);
      current := current + 1;
    }
  }

  /** The first pass of `_bfd_bsd_write_armap`. */
  method CheckBsdOffsets(thin: bool, ms: seq<Member>, index: seq<Entry>, first: nat) returns (fits: bool)
    requires ValidMap(index, |ms|)
    ensures fits <==> AllBelow(BsdMap, thin, ms, index, first)
  {
    hide OrderedUpTo, Behind, StringsUpTo;
    var current: nat, count: nat, at := 0, 0, first;
    while count < |index|
      invariant count <= |index|
      invariant forall i :: count <= i < |index| ==> index[i].member >= current
      invariant current < |ms| ==> at == Predicted(BsdMap, thin, ms, first, current)
      invariant forall i :: 0 <= i < count ==> Predicted(BsdMap, thin, ms, first, index[i].member) < TWO32
    {
      LaterEntries(index, count);
      if index[count].member != current {
        at := BsdAdvance(ms, thin, first, current, index[count].member, at);
        current := index[count].member;
      }
      var offset := ToUnsigned(at);
      if at != offset {
        return false;
      }
      count := count + 1;
    }
    fits := true;
  }

  /** The second pass, with its own check. */
  method WriteBsdOffsets(out: OutputFile, cfg: Config, ms: seq<Member>, index: seq<Entry>, first: nat,
                         ghost offs: seq<nat>)
    returns (ok: bool)
    requires ValidMap(index, |ms|) && SlotsFit(BsdMap, index, offs)
    requires forall i :: 0 <= i < |index| ==> offs[i] == Predicted(BsdMap, cfg.thin, ms, first, index[i].member)
    modifies out
    ensures ok && out.data == old(out.data) + Slots(BsdMap, cfg.big, index, offs)
  {
    hide OrderedUpTo, Behind, StringsUpTo, Concat, Put32;
    var current: nat, count: nat, at := 0, 0, first;
    ConcatStart(old(out.data), SlotParts(BsdMap, cfg.big, index, offs));
    while count < |index|
      invariant count <= |index|
      invariant forall i :: count <= i < |index| ==> index[i].member >= current
      invariant current < |ms| ==> at == Predicted(BsdMap, cfg.thin, ms, first, current)
      invariant out.data == old(out.data) + Concat(SlotParts(BsdMap, cfg.big, index, offs), count)
    {
      LaterEntries(index, count);
      if index[count].member != current {
        at := BsdAdvance(ms, cfg.thin, first, current, index[count].member, at);
        current := index[count].member;
      }
      assert at == offs[count];
      var offset := ToUnsigned(at);
      if at != offset {
        return false;
      }
      ConcatStep(old(out.data), SlotParts(BsdMap, cfg.big, index, offs), count);
      out.Write(Put32(cfg.big, index[count].nameIndex) + Put32(cfg.big, at));
      count := count + 1;
    }
    ok := true;
  }

  method BsdLayout(index: seq<Entry>, elength: nat) returns (padit: nat, stringsize: nat, first: nat)
    ensures padit == Padding(BsdMap, index) && stringsize == StringSize(BsdMap, index)
    ensures first == FirstMember(BsdMap, index, elength)
  {
    padit := |Strings(index)| % 2;
    var ranlibsize := |index| * 8;
    stringsize := |Strings(index)| + padit;
    var mapsize := ranlibsize + stringsize + 8;
    first := (mapsize + elength) % TWO32 + HDR_SIZE + SARMAG;
  }

  /** `_bfd_bsd_write_armap`.  It cannot fail either. */
  method WriteBsdArmap(out: OutputFile, cfg: Config, meta: bytes, ms: seq<Member>, index: seq<Entry>, elength: nat)
    returns (ok: bool, ghost kind: MapKind)
    requires ValidMap(index, |ms|) && MapFits(index, elength) && |meta| == 32
    requires ArchiveFits(cfg.thin, ms, index, elength)
    modifies out
    ensures ok
    ensures kind == if OffsetsFit(BsdMap, cfg.thin, ms, index, elength) then BsdMap else Map64
    ensures SlotsFit(kind, index, Offsets(kind, cfg.thin, ms, index, elength))
    ensures out.data == old(out.data) + MapMember(kind, cfg, meta, ms, index, elength)
  {
    var padit, stringsize, first := BsdLayout(index, elength);
    var fits := CheckBsdOffsets(cfg.thin, ms, index, first);
    if !fits {
      Write64Armap(out, cfg, meta, ms, index, elength);
      return true, Map64;
    }
    kind := BsdMap;
    OffsetsFillSlots(BsdMap, cfg.thin, ms, index, elength);
    out.Write(Encode(MapHeader(BsdMap, meta, index)));
    ok := WriteBsdBody(out, cfg, ms, index, padit, stringsize, first, Offsets(BsdMap, cfg.thin, ms, index, elength));
    Regroup(old(out.data), Encode(MapHeader(BsdMap, meta, index)),
            MapBody(BsdMap, cfg.big, index, Offsets(BsdMap, cfg.thin, ms, index, elength)));
  }

  method WriteBsdBody(out: OutputFile, cfg: Config, ms: seq<Member>, index: seq<Entry>, padit: nat, stringsize: nat,
                      first: nat, ghost offs: seq<nat>)
    returns (ok: bool)
    requires ValidMap(index, |ms|) && MapFits(index, 0) && SlotsFit(BsdMap, index, offs)
    requires padit == Padding(BsdMap, index) && stringsize == StringSize(BsdMap, index)
    requires forall i :: 0 <= i < |index| ==> offs[i] == Predicted(BsdMap, cfg.thin, ms, first, index[i].member)
    modifies out
    ensures ok && out.data == old(out.data) + MapBody(BsdMap, cfg.big, index, offs)
  {
    hide Put32, Concat, OrderedUpTo, EvenUp;
    ghost var before := out.data;
    out.Write(Put32(cfg.big, |index| * 8));
    ok := WriteBsdOffsets(out, cfg, ms, index, first, offs);
    out.Write(Put32(cfg.big, stringsize));
    WriteStrings(out, index);
    WritePad(out, padit);
    ghost var slots := Slots(BsdMap, cfg.big, index, offs);
    Regroup5(before, Put32(cfg.big, |index| * 8), slots, Put32(cfg.big, stringsize), Strings(index), Fill('\0', padit));
  }
}
