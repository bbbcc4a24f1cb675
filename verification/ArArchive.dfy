/** An archive as a whole: opened after it was written it has the same members, and its index
    leads to them. */
module ArArchive {
  import opened Bytes
  import opened ArHeader
  import opened ArNames
  import opened ArIndex
  import opened ArWrite
  import opened ArPositions
  import opened ArRead
  import opened ArSlurp
  import opened ArOpen
  import opened ArRoundTrip

  // ---------------------------------------------------------------------------------------
  // The pieces of the file
  // ---------------------------------------------------------------------------------------

  /** A written archive: the members that were kept, their index and name table. */
  datatype Written = Written(cfg: Config, meta: bytes, kept: seq<Member>, index: Index, table: bytes)

  ghost predicate ValidWritten(w: Written) {
    && ValidConfig(w.cfg) && |w.meta| == 32 && ValidMembers(w.kept) && AllWritable(w.cfg, w.kept)
    && IndexFits(w.cfg, w.kept, w.index, w.table) && TableWritable(w.table)
    && |Image(w.cfg, w.meta, w.kept, w.index, w.table)| < TWO63
    && (w.cfg.style.Bsd44? ==> w.table == [])
  }

  function File(w: Written): bytes
    requires ValidWritten(w)
  {
    Image(w.cfg, w.meta, w.kept, w.index, w.table)
  }

  /** Where the extended name table or the first member starts. */
  function AfterIndex(w: Written): nat
    requires ValidWritten(w)
  {
    SARMAG + |IndexMember(w.cfg, w.meta, w.kept, w.index, w.table)|
  }

  function Start(w: Written): nat
    requires ValidWritten(w)
  {
    Base(w.cfg, w.meta, w.kept, w.index, w.table)
  }

  lemma FourParts(a: bytes, b: bytes, c: bytes, d: bytes)
    ensures var s := a + b + c + d;
            && s[..|a|] == a && s[|a|..|a| + |b|] == b
            && s[|a| + |b|..|a| + |b| + |c|] == c && s[|a| + |b| + |c|..] == d
  {
    var s := a + b + c + d;
    assert s == a + (b + (c + d));
  }

  lemma WrittenFacts(w: Written)
    requires ValidWritten(w)
    ensures ValidConfig(w.cfg) && TableWritable(w.table) && |File(w)| < TWO63 && ValidMembers(w.kept)
    ensures |w.meta| == 32 && IndexFits(w.cfg, w.kept, w.index, w.table)
  {
    hide Image;
  }

  lemma FilePieces(w: Written)
    requires ValidWritten(w)
    ensures var file, p, q := File(w), AfterIndex(w), Start(w);
            && SARMAG <= p <= q <= |file| && |file| == q + |Flat(w.cfg, w.kept)|
            && file[..SARMAG] == Magic(w.cfg)
            && file[SARMAG..p] == IndexMember(w.cfg, w.meta, w.kept, w.index, w.table)
            && file[p..q] == TableMember(w.cfg, w.table)
  {
    hide IndexMember, TableMember, Flat, Magic;
    FourParts(Magic(w.cfg), IndexMember(w.cfg, w.meta, w.kept, w.index, w.table), TableMember(w.cfg, w.table),
              Flat(w.cfg, w.kept));
  }

  /** A header that is neither a reference nor a BSD 4.4 name is read without any table. */
  lemma ReadPlain(cfg: Config, file: bytes, pos: nat, h: Hdr, size: nat)
    requires ValidConfig(cfg) && HeaderAt(file, pos, h) && ScanUnsigned(h.size) == Some(size) && !IsBsd44Name(h.name)
    ensures ReadHdr(cfg, file, None, pos) == Ok(Elt(ShortName(h.name[..cfg.maxName]), size, 0, 0, pos + HDR_SIZE, h))
  {
    hide ScanUnsigned, ShortName, Encode, Decode, IsBsd44Name;
    DecodeEncode(h);
  }

  /** The header and body of a piece that is a member of its own. */
  lemma PieceAt(file: bytes, pos: nat, h: Hdr, body: bytes)
    requires WellFormed(h) && h.fmag == ARFMAG
    requires pos + HDR_SIZE + |body| <= |file| && file[pos..pos + HDR_SIZE + |body|] == Encode(h) + body
    ensures HeaderAt(file, pos, h) && file[pos + HDR_SIZE..pos + HDR_SIZE + |body|] == body
    ensures file[pos..pos + 16] == h.name
  {
    var s := Encode(h) + body;
    SubSlice(file, pos, s, 0, HDR_SIZE);
    SubSlice(file, pos, s, HDR_SIZE, |s|);
    SubSlice(file, pos, s, 0, 16);
  }

  // ---------------------------------------------------------------------------------------
  // The index
  // ---------------------------------------------------------------------------------------

  function Kind(w: Written): MapKind
    requires ValidWritten(w) && w.index.Indexed?
  {
    KindOf(w.cfg, w.kept, w.index.entries, w.table)
  }

  function OffsetsOf(w: Written): (r: seq<nat>)
    requires ValidWritten(w) && w.index.Indexed?
    ensures |r| == |w.index.entries|
  {
    Offsets(Kind(w), w.cfg.thin, w.kept, w.index.entries, TableLength(w.table))
  }

  /** The symbols of the index, with the positions that it stores. */
  function Symbols(w: Written): Option<seq<Carsym>>
    requires ValidWritten(w)
  {
    if w.index.Indexed? then Some(Symdefs(w.index.entries, OffsetsOf(w))) else None
  }

  /** The names of the three index formats are told apart. */
  lemma MapNamesDiffer(file: bytes, kind: MapKind)
    requires |file| >= SARMAG + 16 && file[SARMAG..SARMAG + 16] == MapName(kind)
    ensures Announces(file) == Map(kind) && !IsBsd44Name(MapName(kind))
  {
    var name := MapName(kind);
    assert name[0] == '_' || name[0] == '/';
    assert name[1] == '_' || name[1] == ' ' || name[1] == 'S';
  }

  /** Behind the index there is no second one. */
  ghost predicate NoSecondMap(file: bytes, first: nat) {
    first + 2 <= |file| ==> !(file[first] == '/' && file[first + 1] == ' ')
  }

  lemma SecondMapAbsent(cfg: Config, file: bytes, first: nat)
    requires ValidConfig(cfg) && NoSecondMap(file, first)
    ensures BehindSecondMap(cfg, file, first) == first
  {
    hide ScanUnsigned, ShortName, ExtendedName, IsBsd44Name, Atoi, CString;
    if first + HDR_SIZE <= |file| {
      var header := file[first..first + HDR_SIZE];
      assert Decode(header).name == header[..16];
      assert header[0] == file[first] && header[1] == file[first + 1];
    }
  }

  lemma OpenIndexed(w: Written)
    requires ValidWritten(w) && w.index.Indexed?
    requires NoSecondMap(File(w), AfterIndex(w))
    ensures OpenMap(w.cfg, File(w)) == Ok((Symbols(w), AfterIndex(w)))
  {
    hide ValidWritten, File, AfterIndex, IndexBody, IndexHdr, ReadHdr, Parse, Announces, Symdefs, NoSecondMap;
    hide BehindSecondMap, HeaderAt, EvenUp, OpenMap, MapSize, OffsetsOf, IsBsd44Name, MapName;
    var file, kind, entries := File(w), Kind(w), w.index.entries;
    var body := IndexBody(w);
    IndexPiece(w);
    MapNamesDiffer(file, kind);
    ReadPlain(w.cfg, file, SARMAG, IndexHdr(w), |body|);
    BodyReadsBack(w);
    IndexEndsEven(kind, entries);
    SecondMapAbsent(w.cfg, file, AfterIndex(w));
    OpenMapParts(w.cfg, file, kind, body, Symdefs(entries, OffsetsOf(w)));
  }

  function IndexBody(w: Written): bytes
    requires ValidWritten(w) && w.index.Indexed?
  {
    MapBody(Kind(w), w.cfg.big, w.index.entries, OffsetsOf(w))
  }

  function IndexHdr(w: Written): (h: Hdr)
    requires ValidWritten(w) && w.index.Indexed?
    ensures WellFormed(h) && h.fmag == ARFMAG && h.name == MapName(Kind(w))
    ensures ScanUnsigned(h.size) == Some(MapSize(Kind(w), w.index.entries))
  {
    MapHeader(Kind(w), w.meta, w.index.entries)
  }

  lemma IndexPiece(w: Written)
    requires ValidWritten(w) && w.index.Indexed?
    ensures var file, body := File(w), IndexBody(w);
            && ValidConfig(w.cfg) && |body| == MapSize(Kind(w), w.index.entries)
            && AfterIndex(w) == SARMAG + HDR_SIZE + |body| <= |file| < TWO63
            && HeaderAt(file, SARMAG, IndexHdr(w)) && file[SARMAG + HDR_SIZE..SARMAG + HDR_SIZE + |body|] == body
            && file[SARMAG..SARMAG + 16] == MapName(Kind(w))
  {
    hide ValidWritten, IndexFits, File, IndexMember, TableMember, Magic, Flat, Base, IndexHdr, IndexBody, HeaderAt;
    hide MapSize, Encode, Image, MapName, ScanUnsigned, TableWritable;
    WrittenFacts(w);
    FilePieces(w);
    IndexMemberParts(w);
    PieceAt(File(w), SARMAG, IndexHdr(w), IndexBody(w));
  }

  lemma IndexMemberParts(w: Written)
    requires ValidWritten(w) && w.index.Indexed?
    ensures IndexMember(w.cfg, w.meta, w.kept, w.index, w.table) == Encode(IndexHdr(w)) + IndexBody(w)
    ensures |IndexBody(w)| == MapSize(Kind(w), w.index.entries)
  {
    hide MapSize, MapHeader, MapBody, Encode, Image;
    MapBodyLength(Kind(w), w.cfg.big, w.index.entries, OffsetsOf(w));
  }

  lemma BodyReadsBack(w: Written)
    requires ValidWritten(w) && w.index.Indexed?
    ensures |IndexBody(w)| < TWO32
    ensures Parse(Kind(w), w.cfg.big, IndexBody(w)) == Some(Symdefs(w.index.entries, OffsetsOf(w)))
  {
    hide Image, MapBody, Parse, Symdefs;
    MapRoundTrip(Kind(w), w.cfg.big, w.index.entries, OffsetsOf(w), |w.kept|);
  }

  lemma OpenMapParts(cfg: Config, file: bytes, kind: MapKind, body: bytes, syms: seq<Carsym>)
    requires ValidConfig(cfg) && |file| < TWO63
    requires var p := SARMAG + HDR_SIZE + |body|;
             && p <= |file| && file[SARMAG + HDR_SIZE..p] == body
             && Announces(file) == Map(kind)
             && EvenUp(p) == p && BehindSecondMap(cfg, file, p) == p
    requires Parse(kind, cfg.big, body) == Some(syms)
    requires match ReadHdr(cfg, file, None, SARMAG)
             case Ok(e) => e.data == SARMAG + HDR_SIZE && e.size == |body|
             case Err(_) => false
    ensures OpenMap(cfg, file) == Ok((Some(syms), SARMAG + HDR_SIZE + |body|))
  {
    hide ReadHdr, Parse, Announces, BehindSecondMap, EvenUp;
  }

  lemma IndexEndsEven(kind: MapKind, entries: seq<Entry>)
    ensures EvenUp(SARMAG + HDR_SIZE + MapSize(kind, entries)) == SARMAG + HDR_SIZE + MapSize(kind, entries)
  {
    hide Concat, NameParts;
  }

  // ---------------------------------------------------------------------------------------
  // The extended name table
  // ---------------------------------------------------------------------------------------

  lemma OpenTableThere(w: Written)
    requires ValidWritten(w) && w.table != [] && AfterIndex(w) % 2 == 0
    ensures OpenTable(w.cfg, File(w), AfterIndex(w)) == Ok((TableInMemory(w.table), Start(w)))
  {
    hide ValidWritten, IndexFits, File, Image, TableMember, OpenTable, TableInMemory, IndexMember, TableWritable;
    WrittenFacts(w);
    FilePieces(w);
    TablePieceOpens(w.cfg, File(w), AfterIndex(w), w.table);
  }

  lemma TablePieceOpens(cfg: Config, file: bytes, p: nat, table: bytes)
    requires ValidConfig(cfg) && |file| < TWO63 && table != [] && TableWritable(table) && p % 2 == 0
    requires p + |TableMember(cfg, table)| <= |file|
    requires file[p..p + |TableMember(cfg, table)|] == TableMember(cfg, table)
    ensures OpenTable(cfg, file, p) == Ok((TableInMemory(table), p + |TableMember(cfg, table)|))
  {
    hide ReadHdr, Rewritten, HeaderAt, EvenUp, IsBsd44Name, OpenTable, Encode, SizePad, ScanUnsigned, TableMember;
    hide TableHdr, Fill, TableName, AnnouncesTable, ShortName, NoSecondMap, Announces;
    var h, body := TableHdr(cfg, table), PaddedTable(table);
    TableMemberParts(cfg, table);
    PieceAt(file, p, h, body);
    TableNamePlain(cfg, file, p);
    ReadPlain(cfg, file, p, h, |body|);
    TableEndsEven(p, |table|);
    OpenTableParts(cfg, file, p, body, Elt(ShortName(h.name[..cfg.maxName]), |body|, 0, 0, p + HDR_SIZE, h));
  }

  function PaddedTable(table: bytes): bytes {
    table + Fill('\n', |table| % 2)
  }

  lemma TableMemberParts(cfg: Config, table: bytes)
    requires table != [] && TableWritable(table)
    ensures var h := TableHdr(cfg, table);
            && TableMember(cfg, table) == Encode(h) + PaddedTable(table)
            && h.name == TableName(cfg) && h.fmag == ARFMAG && ScanUnsigned(h.size) == Some(|PaddedTable(table)|)
    ensures |PaddedTable(table)| == EvenUp(|table|)
  {
    hide Encode, ScanUnsigned, SizePad;
    SizeFieldRoundTrip(EvenUp(|table|));
    Regroup(Encode(TableHdr(cfg, table)), table, Fill('\n', |table| % 2));
  }

  lemma TableNamePlain(cfg: Config, file: bytes, p: nat)
    requires p + 16 <= |file| && file[p..p + 16] == TableName(cfg)
    ensures !IsBsd44Name(TableName(cfg)) && AnnouncesTable(file, p)
    ensures NoSecondMap(file, p)
    ensures p == SARMAG ==> Announces(file) == NoMap
  {
    var name := TableName(cfg);
    assert name[0] == file[p] && name[1] == file[p + 1];
  }

  lemma TableEndsEven(p: nat, n: nat)
    requires p % 2 == 0
    ensures EvenUp(p + HDR_SIZE + EvenUp(n)) == p + HDR_SIZE + EvenUp(n)
  {
  }

  lemma OpenTableParts(cfg: Config, file: bytes, p: nat, body: bytes, e: Elt)
    requires ValidConfig(cfg) && |file| < TWO63 && AnnouncesTable(file, p)
    requires var q := p + HDR_SIZE + |body|;
             q <= |file| && file[p + HDR_SIZE..q] == body && EvenUp(q) == q
    requires ReadHdr(cfg, file, None, p) == Ok(e) && e.data == p + HDR_SIZE && e.size == |body|
    ensures OpenTable(cfg, file, p) == Ok((Some(Rewritten(body)), p + HDR_SIZE + |body|))
  {
    hide ReadHdr, Rewritten, EvenUp, AnnouncesTable;
  }

  // ---------------------------------------------------------------------------------------
  // The first member, when nothing stands before it
  // ---------------------------------------------------------------------------------------

  /** The first header is not taken for the header of an index or of a name table. */
  predicate Unmistakable(w: Written)
    requires w.kept != [] && ValidMember(w.kept[0])
  {
    var m := w.kept[0];
    var field := m.hdr.name;
    && field[0] != '/' && field != "ARFILENAMES/    "
    && (w.index.NoIndex? ==>
        && field != "__.SYMDEF       " && field != "__.SYMDEF/      " && !IsEcoff(field)
        && (field == "#1/20           " ==>
            Extended(w.cfg, m) && |ExtraBytes(w.cfg, m)| >= 20 && !("__.SYMDEF" <= m.name)))
  }

  predicate FirstOk(w: Written)
    requires ValidMembers(w.kept)
  {
    w.table == [] && w.kept != [] ==> Unmistakable(w)
  }

  /** The first member stands where the index and the name table end. */
  lemma FirstMemberAt(w: Written)
    requires ValidWritten(w) && w.kept != []
    ensures var file, q, part := File(w), Start(w), MemberBytes(w.cfg, w.kept[0]);
            && q + |part| <= |file| && file[q..q + |part|] == part && |part| >= HDR_SIZE
            && file[q..q + 16] == w.kept[0].hdr.name
            && q + HDR_SIZE + |ExtraBytes(w.cfg, w.kept[0])| <= |file|
            && file[q + HDR_SIZE..q + HDR_SIZE + |ExtraBytes(w.cfg, w.kept[0])|] == ExtraBytes(w.cfg, w.kept[0])
  {
    hide Image, MemberBytes, Concat, IndexMember, TableMember, ExtraBytes, DataBytes, Base, Encode;
    MemberInFile(w.cfg, w.meta, w.kept, w.index, w.table, 0);
    StartsAtBase(w);
    var m := w.kept[0];
    MemberFront(w.cfg, m, File(w), Start(w));
    NameFirst(File(w), Start(w), FinalHdr(w.cfg, m));
  }

  lemma StartsAtBase(w: Written)
    requires ValidWritten(w)
    ensures HeaderPos(w.cfg, w.kept, Start(w), 0) == Start(w)
    ensures HeaderPos(w.cfg, w.kept, Start(w), |w.kept|) == |File(w)|
  {
    hide IndexMember, TableMember, Magic, MemberBytes;
    FilePieces(w);
  }

  lemma NameFirst(file: bytes, pos: nat, h: Hdr)
    requires WellFormed(h) && pos + HDR_SIZE <= |file| && file[pos..pos + HDR_SIZE] == Encode(h)
    ensures file[pos..pos + 16] == h.name
  {
    SubSlice(file, pos, Encode(h), 0, 16);
  }

  lemma OpenTableAbsent(w: Written)
    requires ValidWritten(w) && w.table == [] && FirstOk(w)
    ensures OpenTable(w.cfg, File(w), AfterIndex(w)) == Ok((None, Start(w)))
    ensures AfterIndex(w) == Start(w)
  {
    hide ValidWritten, IndexFits, File, Image, IndexMember, ReadHdr, MemberBytes, ExtraBytes, IsEcoff, HeaderPos, Magic;
    hide ValidMembers;
    WrittenFacts(w);
    FilePieces(w);
    if w.kept == [] {
      StartsAtBase(w);
    } else {
      FirstMemberAt(w);
    }
  }

  // ---------------------------------------------------------------------------------------
  // Opening
  // ---------------------------------------------------------------------------------------

  /** Whatever stands behind the index, it is not a second one. */
  lemma BehindIndex(w: Written)
    requires ValidWritten(w) && FirstOk(w)
    ensures NoSecondMap(File(w), AfterIndex(w))
    ensures w.index.NoIndex? && |File(w)| > SARMAG ==> |File(w)| >= SARMAG + 16 && Announces(File(w)) == NoMap
    ensures w.index.NoIndex? ==> AfterIndex(w) == SARMAG
  {
    hide ValidWritten, IndexFits, File, Image, TableMember, IndexMember, TableWritable, MemberBytes, ExtraBytes;
    hide IsEcoff, HeaderPos, Magic, NoSecondMap, TableName, Start, Announces, Unmistakable;
    WrittenFacts(w);
    FilePieces(w);
    NoIndexNoBytes(w);
    if w.table != [] {
      TableNameThere(w);
      TableNamePlain(w.cfg, File(w), AfterIndex(w));
    } else {
      OpenTableAbsent(w);
      if w.kept == [] {
        StartsAtBase(w);
        NothingBehind(File(w));
      } else {
        FirstMemberAt(w);
        FirstAnnounces(w, File(w), Start(w));
      }
    }
  }

  lemma NothingBehind(file: bytes)
    ensures NoSecondMap(file, |file|)
  {
  }

  lemma NoIndexNoBytes(w: Written)
    requires ValidWritten(w)
    ensures w.index.NoIndex? ==> AfterIndex(w) == SARMAG
  {
    hide Image, TableWritable, ValidMembers, MapHeader, MapBody;
  }

  lemma TableNameThere(w: Written)
    requires ValidWritten(w) && w.table != []
    ensures AfterIndex(w) + 16 <= |File(w)| && File(w)[AfterIndex(w)..AfterIndex(w) + 16] == TableName(w.cfg)
  {
    hide ValidWritten, IndexFits, File, Image, TableMember, IndexMember, TableHdr, Encode, TableName, ScanUnsigned;
    hide Fill;
    WrittenFacts(w);
    FilePieces(w);
    TableMemberParts(w.cfg, w.table);
    PieceAt(File(w), AfterIndex(w), TableHdr(w.cfg, w.table), PaddedTable(w.table));
  }

  lemma FirstAnnounces(w: Written, file: bytes, q: nat)
    requires w.kept != [] && ValidMember(w.kept[0]) && Unmistakable(w)
    requires var extra := ExtraBytes(w.cfg, w.kept[0]);
             && q + HDR_SIZE + |extra| <= |file| && file[q..q + 16] == w.kept[0].hdr.name
             && file[q + HDR_SIZE..q + HDR_SIZE + |extra|] == extra
    ensures NoSecondMap(file, q)
    ensures w.index.NoIndex? && q == SARMAG ==> Announces(file) == NoMap
  {
    hide IsEcoff, ExtraBytes;
    var m := w.kept[0];
    var field := m.hdr.name;
    assert field[0] == file[q];
    if w.index.NoIndex? && q == SARMAG && field == "#1/20           " {
      NotSymdef(w.cfg, m);
      var extra := ExtraBytes(w.cfg, m);
      SubSlice(file, q + HDR_SIZE, extra, 0, 9);
    }
  }

  /** A long name in front of the contents is not taken for that of an index. */
  lemma NotSymdef(cfg: Config, m: Member)
    requires ValidMember(m) && |ExtraBytes(cfg, m)| >= 20 && !("__.SYMDEF" <= m.name)
    ensures ExtraBytes(cfg, m)[..9] != "__.SYMDEF"
  {
    hide RoundUp4;
    assert ExtraBytes(cfg, m)[..9] == m.name[..9];
  }

  /** An archive without an index is opened without one. */
  lemma OpenNoIndex(w: Written)
    requires ValidWritten(w) && w.index.NoIndex? && FirstOk(w)
    ensures OpenMap(w.cfg, File(w)) == Ok((None, AfterIndex(w)))
  {
    hide ValidWritten, File, Image, IndexMember, TableMember, Announces, ReadMap, FirstOk, NoSecondMap, Flat;
    FilePieces(w);
    WrittenFacts(w);
    BehindIndex(w);
  }

  lemma AfterIndexEven(w: Written)
    requires ValidWritten(w)
    ensures AfterIndex(w) % 2 == 0
  {
    hide ValidWritten, File, AfterIndex, IndexBody, IndexHdr, HeaderAt, MapSize, MapName, IndexMember;
    if w.index.Indexed? {
      IndexPiece(w);
      IndexEndsEven(Kind(w), w.index.entries);
    } else {
      NoIndexNoBytes(w);
    }
  }

  /** An archive that was written is opened: with the index that was made for it, its name table
      in the form that names are looked up in, and its first member where it was put. */
  lemma OpenWritten(w: Written)
    requires ValidWritten(w) && FirstOk(w)
    ensures Open(w.cfg, File(w)) == Ok(Artdata(w.cfg.thin, Symbols(w), TableInMemory(w.table), Start(w)))
  {
    hide ValidWritten, File, AfterIndex, Start, Symbols, OpenMap, OpenTable, TableInMemory, FirstOk, NoSecondMap;
    hide TableMember, IndexMember, Flat;
    WrittenFacts(w);
    FilePieces(w);
    BehindIndex(w);
    AfterIndexEven(w);
    if w.index.Indexed? { OpenIndexed(w); } else { OpenNoIndex(w); NoSymbols(w); }
    if w.table != [] { OpenTableThere(w); } else { OpenTableAbsent(w); NoTable(); }
    OpenParts(w.cfg, File(w), Symbols(w), AfterIndex(w), TableInMemory(w.table), Start(w));
  }

  lemma NoSymbols(w: Written)
    requires ValidWritten(w) && w.index.NoIndex?
    ensures Symbols(w) == None
  {
    hide ValidWritten;
  }

  lemma NoTable()
    ensures TableInMemory([]) == None
  {
  }

  lemma OpenParts(cfg: Config, file: bytes, syms: Option<seq<Carsym>>, p: nat, table: Option<bytes>, q: nat)
    requires ValidConfig(cfg) && SARMAG <= |file| < TWO63 && file[..SARMAG] == Magic(cfg)
    requires OpenMap(cfg, file) == Ok((syms, p)) && OpenTable(cfg, file, p) == Ok((table, q))
    ensures Open(cfg, file) == Ok(Artdata(cfg.thin, syms, table, q))
  {
    hide OpenMap, OpenTable;
    MagicsDiffer();
  }

  lemma MagicsDiffer()
    ensures ARMAG != ARMAGT
  {
    assert ARMAG[2] != ARMAGT[2];
  }
}
