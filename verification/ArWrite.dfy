/** Writing an archive: BSD 4.4 names, member headers, contents and padding, and the file as a
    whole. */
module ArWrite {
  import opened Bytes
  import opened ArHeader
  import opened ArNames
  import opened ArIndex
  import opened ArIndexWriter

  // ---------------------------------------------------------------------------------------
  // BSD 4.4 names
  // ---------------------------------------------------------------------------------------

  function RoundUp4(n: nat): (r: nat)
    ensures r % 4 == 0 && n <= r < n + 4
  {
    (n + 3) / 4 * 4
  }

  /** A name that the BSD 4.4 convention writes behind the header. */
  predicate NeedsExtension(cfg: Config, name: bytes) {
    |name| > cfg.maxName || ' ' in name
  }

  function Bsd44Named(cfg: Config, m: Member): (r: Member)
    requires ValidConfig(cfg) && ValidMember(m)
    ensures ValidMember(r) && r.name == m.name && r.contents == m.contents
    ensures r.symbols == m.symbols && r.isObject == m.isObject && r.file == m.file
  {
    if NeedsExtension(cfg, m.name) then
      var len := RoundUp4(|m.name|);
      m.(extra := len,
         hdr := m.hdr.(name := Over(m.hdr.name, SpacePad("#1/" + Decimal(len), cfg.maxName))))
    else m
  }

  function AllBsd44Named(cfg: Config, ms: seq<Member>): (r: seq<Member>)
    requires ValidConfig(cfg) && ValidMembers(ms)
    ensures ValidMembers(r) && |r| == |ms|
    ensures forall k :: 0 <= k < |ms| ==> r[k] == Bsd44Named(cfg, ms[k])
  {
    seq(|ms|, k requires 0 <= k < |ms| => Bsd44Named(cfg, ms[k]))
  }

  /** `_bfd_archive_bsd44_construct_extended_name_table` */
  method ConstructBsd44Names(cfg: Config, members: seq<Member>) returns (named: seq<Member>)
    requires ValidConfig(cfg) && ValidMembers(members)
    ensures named == AllBsd44Named(cfg, members)
  {
    named := [];
    var i := 0;
    ghost var all := AllBsd44Named(cfg, members);
    while i < |members|
      invariant 0 <= i <= |members| && named == all[..i]
    {
      var m := members[i];
      var hasSpace := false;
      var len := 0;
      while len < |m.name|
        invariant 0 <= len <= |m.name|
        invariant hasSpace <==> ' ' in m.name[..len]
      {
        if m.name[len] == ' ' { hasSpace := true; }
        PrefixStep(m.name, len);
        len := len + 1;
      }
      assert m.name[..len] == m.name;
      if len > cfg.maxName || hasSpace {
        len := RoundUp4(len);
        m := m.(extra := len,
                hdr := m.hdr.(name := Over(m.hdr.name, SpacePad("#1/" + Decimal(len), cfg.maxName))));
      }
      PrefixStep(all, i);
      named := named + [m];
      i := i + 1;
    }
  }

  // ---------------------------------------------------------------------------------------
  // Members
  // ---------------------------------------------------------------------------------------

  /** The header tells that the name stands behind it, and the header writer heeds it. */
  predicate Extended(cfg: Config, m: Member)
    requires ValidMember(m)
  {
    cfg.style.Bsd44? && IsBsd44Name(m.hdr.name)
  }

  /** What `_bfd_bsd44_write_ar_hdr` writes behind the header. */
  function ExtraBytes(cfg: Config, m: Member): (r: bytes)
    requires ValidMember(m)
  {
    if Extended(cfg, m) then m.name + Fill('\0', RoundUp4(|m.name|) - |m.name|) else []
  }

  /** The size in the header can be written. */
  predicate Writable(cfg: Config, m: Member)
    requires ValidMember(m)
  {
    Extended(cfg, m) ==> SizePad(|m.contents| + RoundUp4(|m.name|)).Some?
  }

  function FinalHdr(cfg: Config, m: Member): (h: Hdr)
    requires ValidMember(m) && Writable(cfg, m)
    ensures WellFormed(h) && h.name == m.hdr.name && h.fmag == m.hdr.fmag
  {
    if Extended(cfg, m) then m.hdr.(size := SizePad(|m.contents| + RoundUp4(|m.name|)).value)
    else m.hdr
  }

  /** Everything the archive holds of one member. */
  function MemberBytes(cfg: Config, m: Member): (r: bytes)
    requires ValidMember(m) && Writable(cfg, m)
  {
    Encode(FinalHdr(cfg, m)) + ExtraBytes(cfg, m) + DataBytes(cfg, m)
  }

  /** The contents and their padding; a thin archive holds neither. */
  function DataBytes(cfg: Config, m: Member): (r: bytes) {
    if cfg.thin then [] else m.contents + Fill('\n', |m.contents| % 2)
  }

  lemma MemberLength(cfg: Config, m: Member)
    requires ValidMember(m) && Writable(cfg, m)
    ensures |ExtraBytes(cfg, m)| == if Extended(cfg, m) then RoundUp4(|m.name|) else 0
    ensures |DataBytes(cfg, m)| == if cfg.thin then 0 else EvenUp(|m.contents|)
    ensures |MemberBytes(cfg, m)| == HDR_SIZE + |ExtraBytes(cfg, m)| + |DataBytes(cfg, m)|
  {
  }

  predicate AllWritable(cfg: Config, ms: seq<Member>) {
    forall i :: 0 <= i < |ms| ==> ValidMember(ms[i]) && Writable(cfg, ms[i])
  }

  function MemberParts(cfg: Config, ms: seq<Member>): (r: seq<bytes>)
    requires AllWritable(cfg, ms)
    ensures |r| == |ms|
    ensures forall i :: 0 <= i < |ms| ==> r[i] == MemberBytes(cfg, ms[i])
  {
    seq(|ms|, i requires 0 <= i < |ms| => MemberBytes(cfg, ms[i]))
  }

  /** The members one behind the other. */
  function Flat(cfg: Config, ms: seq<Member>): bytes
    requires AllWritable(cfg, ms)
  {
    Concat(MemberParts(cfg, ms), |ms|)
  }

  /** `_bfd_generic_write_ar_hdr` and `_bfd_bsd44_write_ar_hdr` */
  method WriteHdr(out: OutputFile, cfg: Config, m: Member) returns (ok: bool)
    requires ValidMember(m)
    modifies out
    ensures ok <==> Writable(cfg, m)
    ensures ok ==> out.data == old(out.data) + Encode(FinalHdr(cfg, m)) + ExtraBytes(cfg, m)
  {
    if cfg.style.Bsd44? && IsBsd44Name(m.hdr.name) {
      var len := |m.name|;
      var padded := RoundUp4(len);
      var size := SizePad(|m.contents| + padded);
      if size.None? {
        return false;
      }
      out.Write(Encode(m.hdr.(size := size.value)));
      out.Write(m.name);
      if len % 4 != 0 {
        out.Write(Fill('\0', 4 - len % 4));
      }
      assert ExtraBytes(cfg, m) == m.name + Fill('\0', padded - len);
      Regroup(old(out.data) + Encode(FinalHdr(cfg, m)), m.name, Fill('\0', padded - len));
    } else {
      out.Write(Encode(m.hdr));
    }
    ok := true;
  }

  const AR_WRITE_BUFFERSIZE: nat := 8 * 1024 * 1024

  /** The contents, copied a buffer at a time. */
  method CopyContents(out: OutputFile, contents: bytes)
    modifies out
    ensures out.data == old(out.data) + contents
  {
    var remaining := |contents|;
    assert contents[..0] == [];
    while remaining != 0
      invariant 0 <= remaining <= |contents|
      invariant out.data == old(out.data) + contents[..|contents| - remaining]
    {
      var amt := AR_WRITE_BUFFERSIZE;
      if amt > remaining { amt := remaining; }
      var done := |contents| - remaining;
      out.Write(contents[done..done + amt]);
      assert contents[..done + amt] == contents[..done] + contents[done..done + amt];
      remaining := remaining - amt;
    }
    assert contents[..|contents|] == contents;
  }

  /** One turn of the loop that writes members. */
  method WriteMember(out: OutputFile, cfg: Config, m: Member) returns (ok: bool)
    requires ValidMember(m)
    modifies out
    ensures ok <==> Writable(cfg, m)
    ensures ok ==> out.data == old(out.data) + MemberBytes(cfg, m)
  {
    ok := WriteHdr(out, cfg, m);
    if !ok || cfg.thin {
      if ok { Regroup(old(out.data), Encode(FinalHdr(cfg, m)), ExtraBytes(cfg, m)); }
      return;
    }
    CopyContents(out, m.contents);
    if |m.contents| % 2 == 1 {
      out.Write([ARFMAG[1]]);
    }
    Regroup(old(out.data) + Encode(FinalHdr(cfg, m)) + ExtraBytes(cfg, m), m.contents, Fill('\n', |m.contents| % 2));
    Regroup(old(out.data), Encode(FinalHdr(cfg, m)), ExtraBytes(cfg, m));
    Regroup(old(out.data), Encode(FinalHdr(cfg, m)) + ExtraBytes(cfg, m), DataBytes(cfg, m));
  }

  method WriteMembers(out: OutputFile, cfg: Config, ms: seq<Member>) returns (ok: bool)
    requires ValidMembers(ms)
    modifies out
    ensures ok <==> AllWritable(cfg, ms)
    ensures ok ==> out.data == old(out.data) + Flat(cfg, ms)
  {
    hide MemberBytes, Concat;
    var current := 0;
    ghost var parts := seq(|ms|, i requires 0 <= i < |ms| =>
                                   if Writable(cfg, ms[i]) then MemberBytes(cfg, ms[i]) else []);
    ConcatStart(old(out.data), parts);
    while current < |ms|
      invariant 0 <= current <= |ms|
      invariant forall i :: 0 <= i < current ==> Writable(cfg, ms[i])
      invariant out.data == old(out.data) + Concat(parts, current)
    {
      ok := WriteMember(out, cfg, ms[current]);
      if !ok {
        return;
      }
      ConcatStep(old(out.data), parts, current);
      current := current + 1;
    }
    assert AllWritable(cfg, ms) && parts == MemberParts(cfg, ms);
    ok := true;
  }

  // ---------------------------------------------------------------------------------------
  // The whole file
  // ---------------------------------------------------------------------------------------

  function TableName(cfg: Config): (r: bytes)
    ensures |r| == 16
  {
    if cfg.style.Coff? then "//              " else "ARFILENAMES/    "
  }

  /** The extended name table can be written. */
  predicate TableWritable(table: bytes) {
    table != [] ==> SizePad(EvenUp(|table|)).Some?
  }

  function TableHdr(cfg: Config, table: bytes): (h: Hdr)
    requires SizePad(EvenUp(|table|)).Some?
    ensures WellFormed(h)
  {
    Hdr(TableName(cfg), Fill(' ', 32), SizePad(EvenUp(|table|)).value, ARFMAG)
  }

  /** The extended name table as a member, or nothing. */
  function TableMember(cfg: Config, table: bytes): (r: bytes)
    requires TableWritable(table)
  {
    if table == [] then []
    else Encode(TableHdr(cfg, table)) + table + Fill('\n', |table| % 2)
  }

  /** The length that `_bfd_compute_and_write_armap` sets aside for the extended name table. */
  function TableLength(table: bytes): (n: nat) {
    var n := if |table| != 0 then |table| + HDR_SIZE else |table|;
    EvenUp(n)
  }

  /** It is the length of the table when it is written. */
  lemma TableLengthExact(cfg: Config, table: bytes)
    requires TableWritable(table)
    ensures TableLength(table) == |TableMember(cfg, table)| && TableLength(table) % 2 == 0
  {
  }

  /** The archive being closed no longer has the old index as its first members. */
  function WithoutSymdef(ms: seq<Member>): (r: seq<Member>)
    ensures |r| <= |ms| && r == ms[|ms| - |r|..]
  {
    if ms != [] && ms[0].file == "__.SYMDEF" then WithoutSymdef(ms[1..]) else ms
  }

  function NameTable(cfg: Config, ms: seq<Member>): bytes {
    if cfg.style.Bsd44? then [] else Table(cfg, ms)
  }

  function NamedMembers(cfg: Config, ms: seq<Member>): (r: seq<Member>)
    requires ValidConfig(cfg) && ValidMembers(ms) && TableFits(cfg, ms)
    ensures ValidMembers(r) && |r| == |ms|
  {
    if cfg.style.Bsd44? then AllBsd44Named(cfg, ms) else AllNamed(cfg, ms)
  }

  predicate HasObjects(ms: seq<Member>) {
    exists i :: 0 <= i < |ms| && ms[i].isObject
  }

  function Magic(cfg: Config): (r: bytes)
    ensures |r| == SARMAG
  {
    if cfg.thin then ARMAGT else ARMAG
  }

  /** The index of an archive, if it gets one. */
  datatype Index = NoIndex | Indexed(entries: seq<Entry>)

  /** The index that an archive with these members gets. */
  ghost predicate IndexFor(named: seq<Member>, makemap: bool, kept: seq<Member>, index: Index) {
    if makemap && HasObjects(named) then
      && index.Indexed? && kept == WithoutSymdef(named)
      && ValidMap(index.entries, |kept|) && Lists(index.entries, Defined(kept, |kept|))
    else index == NoIndex && kept == named
  }

  predicate IndexFits(cfg: Config, kept: seq<Member>, index: Index, table: bytes) {
    index.Indexed? ==>
      && ValidMap(index.entries, |kept|)
      && MapFits(index.entries, TableLength(table))
      && ArchiveFits(cfg.thin, kept, index.entries, TableLength(table))
  }

  function KindOf(cfg: Config, kept: seq<Member>, entries: seq<Entry>, table: bytes): (kind: MapKind)
    requires IndexFits(cfg, kept, Indexed(entries), table)
    ensures SlotsFit(kind, entries, Offsets(kind, cfg.thin, kept, entries, TableLength(table)))
  {
    var kind := ChosenKind(cfg, kept, entries, TableLength(table));
    OffsetsFillSlots(kind, cfg.thin, kept, entries, TableLength(table));
    kind
  }

  function IndexMember(cfg: Config, meta: bytes, kept: seq<Member>, index: Index, table: bytes): bytes
    requires |meta| == 32 && IndexFits(cfg, kept, index, table)
  {
    match index
    case NoIndex => []
    case Indexed(entries) =>
      MapMember(KindOf(cfg, kept, entries, table), cfg, meta, kept, entries, TableLength(table))
  }

  /** The archive file. */
  function Image(cfg: Config, meta: bytes, kept: seq<Member>, index: Index, table: bytes): bytes
    requires |meta| == 32 && IndexFits(cfg, kept, index, table)
    requires TableWritable(table) && AllWritable(cfg, kept)
  {
    Magic(cfg) + IndexMember(cfg, meta, kept, index, table) + TableMember(cfg, table) + Flat(cfg, kept)
  }

  /** Whether there are object files, if it matters. */
  method FindObjects(named: seq<Member>, makemap: bool) returns (hasobjects: bool)
    ensures makemap ==> (hasobjects <==> HasObjects(named))
  {
    hasobjects := false;
    var i := 0;
    while i < |named|
      invariant 0 <= i <= |named|
      invariant hasobjects ==> HasObjects(named)
      invariant makemap && !hasobjects ==> forall k :: 0 <= k < i ==> !named[k].isObject
    {
      if makemap && !hasobjects {
        if named[i].isObject { hasobjects := true; }
      }
      i := i + 1;
    }
  }

  /** The decision to make an index, and the index. */
  method MakeIndex(cfg: Config, named: seq<Member>, makemap: bool)
    returns (kept: seq<Member>, index: Index)
    requires SymbolNamesOk(named)
    ensures IndexFor(named, makemap, kept, index)
  {
    hide HasObjects, Lists, Defined, ValidMap;
    var hasobjects := FindObjects(named, makemap);
    kept, index := named, NoIndex;
    if makemap && hasobjects {
      while kept != [] && kept[0].file == "__.SYMDEF"
        invariant WithoutSymdef(kept) == WithoutSymdef(named)
        invariant SymbolNamesOk(kept)
        decreases |kept|
      {
        kept := kept[1..];
      }
      var entries, stridx := CollectSymbols(kept);
      index := Indexed(entries);
    }
  }

  /** `_bfd_write_archive_contents` once the index is known: it fails exactly when a size does
      not fit in its header field, and otherwise leaves the whole file. */
  method WriteFile(out: OutputFile, cfg: Config, meta: bytes, kept: seq<Member>, index: Index, table: bytes)
    returns (ok: bool)
    requires out.data == [] && |meta| == 32 && ValidMembers(kept) && IndexFits(cfg, kept, index, table)
    modifies out
    ensures ok <==> TableWritable(table) && AllWritable(cfg, kept)
    ensures ok ==> out.data == Image(cfg, meta, kept, index, table)
  {
    out.Write(Magic(cfg));
    assert out.data == Magic(cfg);
    WriteIndex(out, cfg, meta, kept, index, table);
    ok := WriteTable(out, cfg, table);
    if ok {
      ok := WriteMembers(out, cfg, kept);
    }
  }

  /** `write_armap` of the target, if there is to be an index. */
  method WriteIndex(out: OutputFile, cfg: Config, meta: bytes, kept: seq<Member>, index: Index, table: bytes)
    requires |meta| == 32 && IndexFits(cfg, kept, index, table)
    modifies out
    ensures out.data == old(out.data) + IndexMember(cfg, meta, kept, index, table)
  {
    if index.Indexed? {
      var ok;
      ghost var kind;
      if cfg.style.Coff? {
        ok, kind := WriteCoffArmap(out, cfg, meta, kept, index.entries, TableLength(table));
      } else {
        ok, kind := WriteBsdArmap(out, cfg, meta, kept, index.entries, TableLength(table));
      }
    }
  }

  method WriteTable(out: OutputFile, cfg: Config, table: bytes) returns (ok: bool)
    modifies out
    ensures ok <==> TableWritable(table)
    ensures ok ==> out.data == old(out.data) + TableMember(cfg, table)
  {
    if |table| != 0 {
      var size := SizePad(EvenUp(|table|));
      if size.None? {
        return false;
      }
      var hdr := Hdr(TableName(cfg), Fill(' ', 32), size.value, ARFMAG);
      out.Write(Encode(hdr));
      out.Write(table);
      if |table| % 2 == 1 { out.Write([ARFMAG[1]]); }
      Regroup5(old(out.data), Encode(hdr), table, Fill('\n', |table| % 2), [], []);
    }
    ok := true;
  }

  /** `_bfd_write_archive_contents`: names, index, then the file.  `Fits` says that the counters
      of the writers are wide enough. */
  method WriteArchive(cfg: Config, meta: bytes, members: seq<Member>, makemap: bool)
    returns (ok: bool, out: OutputFile, kept: seq<Member>, index: Index)
    requires ValidConfig(cfg) && ValidMembers(members) && TableFits(cfg, members)
    requires SymbolNamesOk(members) && |meta| == 32
    requires IndexWillFit(cfg, members)
    ensures IndexFor(NamedMembers(cfg, members), makemap, kept, index)
    ensures ValidMembers(kept) && IndexFits(cfg, kept, index, NameTable(cfg, members))
    ensures ok <==> TableWritable(NameTable(cfg, members)) && AllWritable(cfg, kept)
    ensures ok ==> out.data == Image(cfg, meta, kept, index, NameTable(cfg, members))
  {
    hide Image, NamedMembers, NameTable, Defined, OrderedUpTo, Concat, TableLength, Writable;
    out := new OutputFile();
    var table, named := ConstructNames(cfg, members);
    SameSymbols(cfg, members);
    kept, index := MakeIndex(cfg, named, makemap);
    ok := WriteFile(out, cfg, meta, kept, index, table);
  }

  /** `_bfd_construct_extended_name_table` of the target. */
  method ConstructNames(cfg: Config, members: seq<Member>) returns (table: bytes, named: seq<Member>)
    requires ValidConfig(cfg) && ValidMembers(members) && TableFits(cfg, members)
    ensures table == NameTable(cfg, members) && named == NamedMembers(cfg, members)
  {
    hide Concat, Named, Bsd44Named;
    if cfg.style.Bsd44? {
      named := ConstructBsd44Names(cfg, members);
      table := [];
    } else {
      var arr;
      arr, named := ConstructTable(cfg, members);
      table := arr[..];
    }
  }

  /** Whatever index these members get, it fits in the counters of the index writers. */
  ghost predicate IndexWillFit(cfg: Config, members: seq<Member>)
    requires ValidConfig(cfg) && ValidMembers(members) && TableFits(cfg, members)
  {
    var kept := WithoutSymdef(NamedMembers(cfg, members));
    forall entries :: ValidMap(entries, |kept|) && Lists(entries, Defined(kept, |kept|)) ==>
                        IndexFits(cfg, kept, Indexed(entries), NameTable(cfg, members))
  }

  /** Naming changes headers only. */
  lemma NamedSame(cfg: Config, ms: seq<Member>, i: nat)
    requires ValidConfig(cfg) && ValidMembers(ms) && TableFits(cfg, ms) && i < |ms|
    ensures var m := NamedMembers(cfg, ms)[i];
            && m.name == ms[i].name && m.contents == ms[i].contents && m.file == ms[i].file
            && m.symbols == ms[i].symbols && m.isObject == ms[i].isObject
  {
    hide TableFits, Named, Bsd44Named;
  }

  lemma SameSymbols(cfg: Config, ms: seq<Member>)
    requires ValidConfig(cfg) && ValidMembers(ms) && TableFits(cfg, ms)
    ensures SymbolNamesOk(ms) ==> SymbolNamesOk(NamedMembers(cfg, ms))
    ensures HasObjects(ms) <==> HasObjects(NamedMembers(cfg, ms))
  {
    hide TableFits, Named, Bsd44Named, NamedMembers, ValidMembers, NulFree;
    var named := NamedMembers(cfg, ms);
    forall i | 0 <= i < |ms|
      ensures named[i].symbols == ms[i].symbols && named[i].isObject == ms[i].isObject
    {
      NamedSame(cfg, ms, i);
    }
  }
}
