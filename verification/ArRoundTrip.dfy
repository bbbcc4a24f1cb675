/** The archive round trip: what is written is found again, member by member, and the index
    leads to the members that define its symbols. */
module ArRoundTrip {
  import opened Bytes
  import opened ArHeader
  import opened ArNames
  import opened ArIndex
  import opened ArWrite
  import opened ArPositions
  import opened ArRead
  import opened ArOpen

  // ---------------------------------------------------------------------------------------
  // What the format can carry
  // ---------------------------------------------------------------------------------------

  /** A member, as it is handed to the writer, whose header tells its size and whose name its
      style of archive can carry. */
  predicate Carriable(cfg: Config, m: Member)
    requires ValidConfig(cfg)
  {
    && ValidMember(m) && m.hdr.fmag == ARFMAG && NulFree(m.name) && m.name != []
    && ScanUnsigned(m.hdr.size) == Some(|m.contents|)
    && (if cfg.style.Bsd44? then
          if NeedsExtension(cfg, m.name) then RoundUp4(|m.name|) < TWO31
          else Spells(cfg, m.hdr.name, m.name) && ShortNameOk(cfg, m.name)
        else if NeedsTable(cfg, m) then TableNameOk(cfg, m.name) && m.origin == 0
        else Spells(cfg, FixName(cfg, m.name, m.hdr.name), m.name) && ShortNameOk(cfg, m.name))
  }

  /** The names that can be carried by a member with a fresh header. */
  predicate NameOk(cfg: Config, name: bytes) {
    && NulFree(name) && name != []
    && (if cfg.style.Bsd44? then
          if NeedsExtension(cfg, name) then RoundUp4(|name|) < TWO31 else ShortNameOk(cfg, name)
        else if cfg.thin || |name| > cfg.maxName then TableNameOk(cfg, name)
        else ShortNameOk(cfg, name))
  }

  /** A member that comes straight from the file system can be carried if its name can. */
  lemma FreshCarriable(cfg: Config, m: Member)
    requires ValidConfig(cfg) && ValidMember(m) && m.hdr.fmag == ARFMAG && m.origin == 0
    requires m.hdr.name == FreshName(cfg, m.name) && |m.contents| < TenTo(10)
    requires SizePad(|m.contents|) == Some(m.hdr.size)
    requires NameOk(cfg, m.name)
    ensures Carriable(cfg, m)
  {
    hide ScanUnsigned, NulFree, Spells;
    SizeFieldRoundTrip(|m.contents|);
    if |m.name| <= cfg.maxName && (cfg.style.Bsd44? || !cfg.thin) && ShortNameOk(cfg, m.name) {
      FreshSpells(cfg, m.name);
      if !cfg.style.Bsd44? { FreshFixed(cfg, m.name); }
    }
  }

  /** The sizing pass leaves a fresh field as it is, or adds the pad character that the BSD
      truncation leaves out. */
  lemma FreshFixed(cfg: Config, name: bytes)
    requires ValidConfig(cfg) && |name| <= cfg.maxName && '/' !in name
    ensures Spells(cfg, FixName(cfg, name, FreshName(cfg, name)), name)
  {
    var blank := FreshName(cfg, name);
    var fixed := FixName(cfg, name, blank);
    forall i | |name| < i < 16
      ensures blank[i] == ' ' && fixed[i] == ' '
    {
      assert blank[i] == ' ';
    }
    if |name| >= 3 {
      assert blank[2] == blank[..|name|][2] == name[2];
      assert fixed[2] == name[2] && name[2] in name;
    }
    FixedSpells(cfg, name, blank);
  }

  // ---------------------------------------------------------------------------------------
  // One member
  // ---------------------------------------------------------------------------------------

  /** The element that reading member `m` back yields, when its header is at `pos`. */
  function ReadBack(cfg: Config, m: Member, pos: nat): Elt
    requires ValidMember(m) && Writable(cfg, m)
  {
    var extra := |ExtraBytes(cfg, m)|;
    Elt(m.name, |m.contents|, extra, 0, pos + HDR_SIZE + extra, FinalHdr(cfg, m))
  }

  /** Member `m` is written in a form that a reader of `table` takes back. */
  ghost predicate Readable(cfg: Config, m: Member, table: Option<bytes>)
    requires ValidConfig(cfg) && ValidMember(m) && Writable(cfg, m)
  {
    forall file: bytes, pos: nat ::
      pos + |MemberBytes(cfg, m)| <= |file| && file[pos..pos + |MemberBytes(cfg, m)|] == MemberBytes(cfg, m) ==>
        ReadHdr(cfg, file, table, pos) == Ok(ReadBack(cfg, m, pos))
  }

  /** The front of a member in a file. */
  lemma MemberFront(cfg: Config, m: Member, file: bytes, pos: nat)
    requires ValidMember(m) && Writable(cfg, m)
    requires pos + |MemberBytes(cfg, m)| <= |file| && file[pos..pos + |MemberBytes(cfg, m)|] == MemberBytes(cfg, m)
    ensures var extra := ExtraBytes(cfg, m); var body := pos + HDR_SIZE;
            && |MemberBytes(cfg, m)| == HDR_SIZE + |extra| + |DataBytes(cfg, m)|
            && file[pos..body] == Encode(FinalHdr(cfg, m))
            && file[body..body + |extra|] == extra
            && file[body + |extra|..body + |extra| + |DataBytes(cfg, m)|] == DataBytes(cfg, m)
  {
    hide ExtraBytes, DataBytes, Encode;
    ThreeParts(file, pos, Encode(FinalHdr(cfg, m)), ExtraBytes(cfg, m), DataBytes(cfg, m));
  }

  lemma ThreeParts(file: bytes, pos: nat, a: bytes, b: bytes, c: bytes)
    requires pos + |a + b + c| <= |file| && file[pos..pos + |a + b + c|] == a + b + c
    ensures file[pos..pos + |a|] == a
    ensures file[pos + |a|..pos + |a| + |b|] == b
    ensures file[pos + |a| + |b|..pos + |a| + |b| + |c|] == c
  {
    var s := a + b + c;
    SubSlice(file, pos, s, 0, |a|);
    SubSlice(file, pos, s, |a|, |a| + |b|);
    SubSlice(file, pos, s, |a| + |b|, |s|);
    assert s[..|a|] == a && s[|a|..|a| + |b|] == b && s[|a| + |b|..] == c;
  }

  lemma SubSlice(file: bytes, pos: nat, s: bytes, i: nat, j: nat)
    requires pos + |s| <= |file| && file[pos..pos + |s|] == s && i <= j <= |s|
    ensures file[pos + i..pos + j] == s[i..j]
  {
    forall k | i <= k < j
      ensures file[pos + k] == s[k]
    {
      assert file[pos..pos + |s|][k] == s[k];
    }
  }

  /** A member with a short name. */
  lemma ShortReadable(cfg: Config, m: Member, table: Option<bytes>)
    requires ValidConfig(cfg) && ValidMember(m) && m.hdr.fmag == ARFMAG && NulFree(m.name) && m.name != []
    requires ScanUnsigned(m.hdr.size) == Some(|m.contents|)
    requires Spells(cfg, m.hdr.name, m.name) && ShortNameOk(cfg, m.name)
    ensures Writable(cfg, m) && Readable(cfg, m, table)
  {
    hide ReadHdr, MemberBytes, DataBytes, ScanUnsigned, NulFree, Encode;
    assert ExtraBytes(cfg, m) == [] && FinalHdr(cfg, m) == m.hdr;
    forall file: bytes, pos: nat |
      pos + |MemberBytes(cfg, m)| <= |file| && file[pos..pos + |MemberBytes(cfg, m)|] == MemberBytes(cfg, m)
      ensures ReadHdr(cfg, file, table, pos) == Ok(ReadBack(cfg, m, pos))
    {
      MemberFront(cfg, m, file, pos);
      ReadShort(cfg, file, table, pos, m.hdr, m.name, |m.contents|);
    }
  }

  /** A member whose name is in the extended name table. */
  lemma ReferenceReadable(cfg: Config, m: Member, field: bytes, off: nat, table: bytes)
    requires ValidConfig(cfg) && ValidMember(m) && m.hdr.fmag == ARFMAG && !cfg.style.Bsd44?
    requires ScanUnsigned(m.hdr.size) == Some(|m.contents|)
    requires |field| == 16 && off < TenTo(11) && off < |table| && |Decimal(off)| + 1 <= cfg.maxName - 1
    requires m.hdr.name == Reference(cfg, field, off, 0) && CString(table[off..]) == m.name
    ensures Writable(cfg, m) && Readable(cfg, m, Some(table))
  {
    hide ReadHdr, MemberBytes, DataBytes, ScanUnsigned, Encode, Reference, CString, Decimal, TenTo;
    assert ExtraBytes(cfg, m) == [] && FinalHdr(cfg, m) == m.hdr;
    forall file: bytes, pos: nat |
      pos + |MemberBytes(cfg, m)| <= |file| && file[pos..pos + |MemberBytes(cfg, m)|] == MemberBytes(cfg, m)
      ensures ReadHdr(cfg, file, Some(table), pos) == Ok(ReadBack(cfg, m, pos))
    {
      MemberFront(cfg, m, file, pos);
      ReadReference(cfg, file, table, pos, m.hdr, field, off, |m.contents|);
    }
  }

  /** A member whose name stands behind the header: the padded length of the name, added to the
      size by the writer, is taken off again by the reader. */
  lemma ExtensionReadable(cfg: Config, m: Member, field: bytes, table: Option<bytes>)
    requires ValidConfig(cfg) && ValidMember(m) && m.hdr.fmag == ARFMAG && NulFree(m.name)
    requires |field| == 16 && RoundUp4(|m.name|) < TWO31
    requires cfg.style.Bsd44? && Writable(cfg, m)
    requires m.hdr.name == Over(field, SpacePad("#1/" + Decimal(RoundUp4(|m.name|)), cfg.maxName))
    ensures Readable(cfg, m, table)
  {
    hide ReadHdr, MemberBytes, ReadBack, RoundUp4, Over, SpacePad, Decimal, NulFree;
    forall file: bytes, pos: nat |
      pos + |MemberBytes(cfg, m)| <= |file| && file[pos..pos + |MemberBytes(cfg, m)|] == MemberBytes(cfg, m)
      ensures ReadHdr(cfg, file, table, pos) == Ok(ReadBack(cfg, m, pos))
    {
      ExtensionReadsAt(cfg, m, field, table, file, pos);
    }
  }

  lemma ExtensionReadsAt(cfg: Config, m: Member, field: bytes, table: Option<bytes>, file: bytes, pos: nat)
    requires ValidConfig(cfg) && ValidMember(m) && m.hdr.fmag == ARFMAG && NulFree(m.name)
    requires |field| == 16 && RoundUp4(|m.name|) < TWO31
    requires cfg.style.Bsd44? && Writable(cfg, m)
    requires m.hdr.name == Over(field, SpacePad("#1/" + Decimal(RoundUp4(|m.name|)), cfg.maxName))
    requires pos + |MemberBytes(cfg, m)| <= |file| && file[pos..pos + |MemberBytes(cfg, m)|] == MemberBytes(cfg, m)
    ensures ReadHdr(cfg, file, table, pos) == Ok(ReadBack(cfg, m, pos))
  {
    hide ReadHdr, MemberBytes, DataBytes, ScanUnsigned, Encode, Over, SpacePad, Decimal, NulFree, IsBsd44Name, RoundUp4;
    hide SizePad, Fill, Atoi;
    var len := RoundUp4(|m.name|);
    ExtensionHeader(cfg, m.hdr, field, len);
    SizeFieldRoundTrip(|m.contents| + len);
    MemberFront(cfg, m, file, pos);
    MemberLength(cfg, m);
    ReadExtension(cfg, file, table, pos, FinalHdr(cfg, m), field, m.name, |m.contents|);
  }

  // ---------------------------------------------------------------------------------------
  // All members
  // ---------------------------------------------------------------------------------------

  /** The extended name table as the reader has it in memory, with the newline that may have
      been added to make its size even. */
  function TableInMemory(table: bytes): Option<bytes> {
    if table == [] then None else Some(Rewritten(table + Fill('\n', |table| % 2)))
  }

  /** Every member that can be carried is written so that it can be read. */
  lemma NamedReadable(cfg: Config, ms: seq<Member>, k: nat)
    requires ValidConfig(cfg) && ValidMembers(ms) && TableFits(cfg, ms) && PathsDetermineNames(cfg, ms)
    requires k < |ms| && Carriable(cfg, ms[k])
    ensures var m := NamedMembers(cfg, ms)[k];
            Writable(cfg, m) ==> Readable(cfg, m, TableInMemory(NameTable(cfg, ms)))
  {
    hide Readable, ScanUnsigned, NulFree, Spells, Table, Writable;
    var m := NamedMembers(cfg, ms)[k];
    if cfg.style.Bsd44? {
      if NeedsExtension(cfg, m.name) {
        if Writable(cfg, m) { ExtensionReadable(cfg, m, ms[k].hdr.name, TableInMemory(NameTable(cfg, ms))); }
      } else {
        ShortReadable(cfg, m, TableInMemory(NameTable(cfg, ms)));
      }
    } else if NeedsTable(cfg, ms[k]) {
      LongNameReadable(cfg, ms, k);
    } else {
      ShortReadable(cfg, m, TableInMemory(NameTable(cfg, ms)));
    }
  }

  lemma LongNameReadable(cfg: Config, ms: seq<Member>, k: nat)
    requires ValidConfig(cfg) && ValidMembers(ms) && TableFits(cfg, ms) && PathsDetermineNames(cfg, ms)
    requires k < |ms| && Carriable(cfg, ms[k]) && !cfg.style.Bsd44? && NeedsTable(cfg, ms[k])
    ensures var m := Named(cfg, ms, k);
            Writable(cfg, m) && Readable(cfg, m, TableInMemory(Table(cfg, ms)))
  {
    hide Readable, ScanUnsigned, NulFree, Spells, Table, Rewritten, Reference, TableEntry, CString, TenTo, Writable;
    var m, table, off := Named(cfg, ms, k), Table(cfg, ms), TableOffset(cfg, ms, k);
    OffsetBelow(cfg, ms, k);
    OffsetPrints(off);
    var padded := table + Fill('\n', |table| % 2);
    NameFromMemory(cfg, ms, k);
    ReferenceReadable(cfg, m, ms[k].hdr.name, off, Rewritten(padded));
  }

  /** The name that a reference leads to is the name that was stored. */
  lemma NameFromMemory(cfg: Config, ms: seq<Member>, k: nat)
    requires k < |ms| && NeedsTable(cfg, ms[k]) && PathsDetermineNames(cfg, ms)
    requires NulFree(ms[k].name) && TableNameOk(cfg, ms[k].name)
    ensures var padded := Table(cfg, ms) + Fill('\n', |Table(cfg, ms)| % 2);
            && TableOffset(cfg, ms, k) < |padded|
            && CString(Rewritten(padded)[TableOffset(cfg, ms, k)..]) == ms[k].name
  {
    hide NulFree, Table, Rewritten, TableEntry, CString, Fill, TableOffset;
    var table, off := Table(cfg, ms), TableOffset(cfg, ms, k);
    var entry := TableEntry(cfg, ms[k].name);
    var pad := Fill('\n', |table| % 2);
    EntryAtOffset(cfg, ms, k);
    OffsetStartsEntry(cfg, ms, k);
    SliceInFront(table, pad, off, off + |entry|);
    InPadded(table, pad, off);
    TableNameRecovered(cfg, table + pad, off, ms[k].name);
  }

  lemma InPadded(table: bytes, pad: bytes, off: nat)
    requires StartsEntry(table, off)
    ensures StartsEntry(table + pad, off)
  {
  }

  // ---------------------------------------------------------------------------------------
  // The walk
  // ---------------------------------------------------------------------------------------

  /** The elements that a reader finds. */
  function ReadBacks(cfg: Config, ms: seq<Member>, base: nat): (r: seq<Elt>)
    requires AllWritable(cfg, ms)
    ensures |r| == |ms|
    ensures forall k :: 0 <= k < |ms| ==> r[k] == ReadBack(cfg, ms[k], HeaderPos(cfg, ms, base, k))
  {
    seq(|ms|, k requires 0 <= k < |ms| => ReadBack(cfg, ms[k], HeaderPos(cfg, ms, base, k)))
  }

  /** The step behind a member comes to the next one. */
  lemma NextIsBehind(cfg: Config, m: Member, pos: nat)
    requires ValidMember(m) && Writable(cfg, m) && pos % 2 == 0 && pos + |MemberBytes(cfg, m)| < TWO63
    ensures NextPos(cfg.thin, ReadBack(cfg, m, pos)) == Ok(pos + |MemberBytes(cfg, m)|)
    ensures (pos + |MemberBytes(cfg, m)|) % 2 == 0
  {
    hide MemberBytes, ExtraBytes, DataBytes, FinalHdr, NextPos, EvenUp, RoundUp4;
    MemberLength(cfg, m);
    var e := ReadBack(cfg, m, pos);
    var q := ExtraQuarter(cfg, m);
    EvenEnd(pos, q, |m.contents|);
    assert e.data == pos + HDR_SIZE + q * 4;
    if cfg.thin {
      ThinNext(e);
    } else {
      PlainNext(e);
    }
  }

  lemma ThinNext(e: Elt)
    requires e.data < TWO64
    ensures NextPos(true, e) == Ok(e.data)
  {
  }

  lemma PlainNext(e: Elt)
    requires EvenUp(e.data + e.size) < TWO63
    ensures NextPos(false, e) == Ok(EvenUp(e.data + e.size))
  {
    var start := e.data + e.size;
    SmallWord(start);
    SmallWord(EvenUp(start));
  }

  lemma SmallWord(n: nat)
    requires n < TWO64
    ensures n % TWO64 == n
  {
  }

  /** What stands between header and contents is a multiple of four. */
  lemma ExtraQuarter(cfg: Config, m: Member) returns (q: nat)
    requires ValidMember(m) && Writable(cfg, m)
    ensures |ExtraBytes(cfg, m)| == q * 4
  {
    MemberLength(cfg, m);
    q := if Extended(cfg, m) then (|m.name| + 3) / 4 else 0;
  }

  lemma EvenEnd(p: nat, q: nat, n: nat)
    requires p % 2 == 0
    ensures EvenUp(p + HDR_SIZE + q * 4 + n) == p + HDR_SIZE + q * 4 + EvenUp(n)
    ensures (p + HDR_SIZE + q * 4) % 2 == 0 && (p + HDR_SIZE + q * 4 + EvenUp(n)) % 2 == 0
  {
    var h := p / 2;
    assert p == 2 * h;
    Halves(h + 30 + q * 2, n);
  }

  lemma Halves(h: nat, n: nat)
    ensures EvenUp(2 * h + n) == 2 * h + EvenUp(n) && (2 * h) % 2 == 0 && (2 * h + EvenUp(n)) % 2 == 0
  {
  }

  /** Stepping through a file that holds the members yields each of them, in order, and stops. */
  lemma {:induction false} WalkMembers(cfg: Config, ms: seq<Member>, file: bytes, table: Option<bytes>, base: nat,
                                       k: nat)
    requires ValidConfig(cfg) && |file| < TWO63 && ValidMembers(ms) && AllWritable(cfg, ms) && k <= |ms|
    requires HeaderPos(cfg, ms, base, k) % 2 == 0
    requires HeaderPos(cfg, ms, base, |ms|) == |file|
    requires forall i :: 0 <= i < |ms| ==> Readable(cfg, ms[i], table) && InFile(cfg, ms, file, base, i)
    ensures Walk(cfg, file, table, HeaderPos(cfg, ms, base, k)) == ReadBacks(cfg, ms, base)[k..]
    decreases |ms| - k
  {
    hide MemberBytes, ReadHdr, HeaderPos, ReadBack, NextPos, Walk, Readable;
    if k < |ms| {
      var pos := HeaderPos(cfg, ms, base, k);
      assert InFile(cfg, ms, file, base, k);
      NextIsBehind(cfg, ms[k], pos);
      WalkMembers(cfg, ms, file, table, base, k + 1);
      ReadsAt(cfg, ms[k], table, file, pos);
      WalkStep(cfg, file, table, pos, ReadBack(cfg, ms[k], pos), HeaderPos(cfg, ms, base, k + 1));
      SuffixStep(ReadBacks(cfg, ms, base), k);
    } else {
      NothingLeft(cfg, file, table);
    }
  }

  lemma ReadsAt(cfg: Config, m: Member, table: Option<bytes>, file: bytes, pos: nat)
    requires ValidConfig(cfg) && ValidMember(m) && Writable(cfg, m) && Readable(cfg, m, table)
    requires pos + |MemberBytes(cfg, m)| <= |file| && file[pos..pos + |MemberBytes(cfg, m)|] == MemberBytes(cfg, m)
    ensures ReadHdr(cfg, file, table, pos) == Ok(ReadBack(cfg, m, pos))
  {
    hide MemberBytes, ReadHdr, ReadBack;
  }

  lemma WalkStep(cfg: Config, file: bytes, table: Option<bytes>, pos: nat, e: Elt, next: nat)
    requires ValidConfig(cfg) && |file| < TWO63
    requires ReadHdr(cfg, file, table, pos) == Ok(e) && NextPos(cfg.thin, e) == Ok(next)
    ensures Walk(cfg, file, table, pos) == [e] + Walk(cfg, file, table, next)
  {
    hide ReadHdr, NextPos;
  }

  lemma SuffixStep<T>(s: seq<T>, k: nat)
    requires k < |s|
    ensures s[k..] == [s[k]] + s[k + 1..]
  {
  }

  lemma NothingLeft(cfg: Config, file: bytes, table: Option<bytes>)
    requires ValidConfig(cfg) && |file| < TWO63
    ensures ReadHdr(cfg, file, table, |file|) == Err(NoMoreFiles)
    ensures Walk(cfg, file, table, |file|) == []
  {
  }

  /** Member `k` stands whole in the file, and the next one directly behind it. */
  predicate InFile(cfg: Config, ms: seq<Member>, file: bytes, base: nat, k: nat)
    requires k < |ms| && AllWritable(cfg, ms)
  {
    var pos, part := HeaderPos(cfg, ms, base, k), MemberBytes(cfg, ms[k]);
    && HeaderPos(cfg, ms, base, k + 1) == pos + |part| <= |file|
    && file[pos..pos + |part|] == part
  }
}
