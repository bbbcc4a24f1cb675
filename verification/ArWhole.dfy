/** The central promises of the archive code: what was put in comes out again, member by member,
    and a symbol of the index leads to the member that defines it. */
module ArWhole {
  import opened Bytes
  import opened ArHeader
  import opened ArNames
  import opened ArIndex
  import opened ArWrite
  import opened ArPositions
  import opened ArRead
  import opened ArSlurp
  import opened ArOpen
  import opened ArRoundTrip
  import opened ArArchive

  /** `w` is what `WriteArchive` leaves of the members `ms`. */
  ghost predicate WrittenBy(w: Written, ms: seq<Member>, makemap: bool) {
    && ValidConfig(w.cfg) && ValidMembers(ms) && TableFits(w.cfg, ms)
    && ValidWritten(w) && w.table == NameTable(w.cfg, ms)
    && IndexFor(NamedMembers(w.cfg, ms), makemap, w.kept, w.index)
  }

  predicate AllCarriable(cfg: Config, ms: seq<Member>)
    requires ValidConfig(cfg)
  {
    forall k :: 0 <= k < |ms| ==> Carriable(cfg, ms[k])
  }

  /** How many old indexes were dropped from the front. */
  function Dropped(w: Written, ms: seq<Member>): nat
    requires |w.kept| <= |ms|
  {
    |ms| - |w.kept|
  }

  /** The kept members are the last ones of those given, with new headers only. */
  lemma KeptAre(w: Written, ms: seq<Member>, makemap: bool, k: nat)
    requires WrittenBy(w, ms, makemap) && k < |w.kept|
    ensures |w.kept| <= |ms| && w.kept[k] == NamedMembers(w.cfg, ms)[Dropped(w, ms) + k]
    ensures var m := ms[Dropped(w, ms) + k];
            && w.kept[k].name == m.name && w.kept[k].contents == m.contents
            && w.kept[k].symbols == m.symbols && w.kept[k].isObject == m.isObject
  {
    hide ValidWritten, Lists, Defined, ValidMap, TableFits, NamedMembers, WithoutSymdef, HasObjects;
    NamedSame(w.cfg, ms, Dropped(w, ms) + k);
  }

  lemma KeptFewer(w: Written, ms: seq<Member>, makemap: bool)
    requires WrittenBy(w, ms, makemap)
    ensures |w.kept| <= |ms|
  {
    hide ValidWritten, Lists, Defined, ValidMap, TableFits;
  }

  /** Every kept member is written in a form that the reader takes back. */
  lemma KeptReadable(w: Written, ms: seq<Member>, makemap: bool, k: nat)
    requires WrittenBy(w, ms, makemap) && k < |w.kept|
    requires AllCarriable(w.cfg, ms) && PathsDetermineNames(w.cfg, ms)
    requires ValidMember(w.kept[k]) && Writable(w.cfg, w.kept[k])
    ensures Readable(w.cfg, w.kept[k], TableInMemory(w.table))
  {
    hide ValidWritten, Lists, Defined, ValidMap, TableFits, NamedMembers, Carriable, Readable, TableInMemory;
    hide PathsDetermineNames, IndexFor, ValidMembers, Writable, NameTable, ValidMember;
    KeptAre(w, ms, makemap, k);
    NamedReadable(w.cfg, ms, Dropped(w, ms) + k);
  }

  lemma StartEven(w: Written)
    requires ValidWritten(w)
    ensures Start(w) % 2 == 0
  {
    hide ValidWritten, IndexMember, TableMember, TableWritable, TableLength, IndexFits, Image;
    WrittenFacts(w);
    AfterIndexEven(w);
    TableLengthExact(w.cfg, w.table);
    assert Start(w) == AfterIndex(w) + |TableMember(w.cfg, w.table)|;
  }

  lemma KeptInFile(w: Written, k: nat)
    requires ValidWritten(w) && k < |w.kept|
    ensures ValidMembers(w.kept) && AllWritable(w.cfg, w.kept)
    ensures InFile(w.cfg, w.kept, File(w), Start(w), k)
  {
    hide Image, HeaderPos, MemberBytes, Base;
    MemberInFile(w.cfg, w.meta, w.kept, w.index, w.table, k);
  }

  lemma WrittenMembers(w: Written)
    requires ValidWritten(w)
    ensures ValidConfig(w.cfg) && |File(w)| < TWO63 && ValidMembers(w.kept) && AllWritable(w.cfg, w.kept)
  {
    hide Image;
  }

  /** Round trip.  Opened again, an archive yields its members in order, each with its name and
      its size, and nothing behind the last one.  It holds for every target style, thin or not,
      with or without an index. */
  lemma ArchiveRoundTrip(w: Written, ms: seq<Member>, makemap: bool)
    requires WrittenBy(w, ms, makemap) && FirstOk(w)
    requires AllCarriable(w.cfg, ms) && PathsDetermineNames(w.cfg, ms)
    ensures ValidConfig(w.cfg) && |File(w)| < TWO63 && AllWritable(w.cfg, w.kept)
    ensures var art := Artdata(w.cfg.thin, Symbols(w), TableInMemory(w.table), Start(w));
            && Open(w.cfg, File(w)) == Ok(art)
            && Walk(w.cfg, File(w), art.table, art.first) == ReadBacks(w.cfg, w.kept, Start(w))
  {
    hide ValidWritten, File, Start, Symbols, TableInMemory, FirstOk, Open, Walk, InFile, Readable, IndexFor, Carriable;
    hide PathsDetermineNames, NamedMembers, NameTable, TableFits, HeaderPos, ReadBacks, ValidMembers, Writable;
    hide ValidMember;
    WrittenMembers(w);
    OpenWritten(w);
    StartEven(w);
    StartsAtBase(w);
    forall i | 0 <= i < |w.kept|
      ensures Readable(w.cfg, w.kept[i], TableInMemory(w.table)) && InFile(w.cfg, w.kept, File(w), Start(w), i)
    {
      KeptReadable(w, ms, makemap, i);
      KeptInFile(w, i);
    }
    WalkMembers(w.cfg, w.kept, File(w), TableInMemory(w.table), Start(w), 0);
    assert ReadBacks(w.cfg, w.kept, Start(w))[0..] == ReadBacks(w.cfg, w.kept, Start(w));
  }

  /** The contents of a member that is read are the contents that were given. */
  lemma ContentsBack(w: Written, ms: seq<Member>, makemap: bool, k: nat)
    requires WrittenBy(w, ms, makemap) && k < |w.kept| && !w.cfg.thin
    ensures ValidMembers(w.kept) && AllWritable(w.cfg, w.kept) && |w.kept| <= |ms|
    ensures var e, m := ReadBacks(w.cfg, w.kept, Start(w))[k], ms[Dropped(w, ms) + k];
            && e.name == m.name && e.size == |m.contents|
            && e.data + e.size <= |File(w)| && File(w)[e.data..e.data + e.size] == m.contents
  {
    hide ValidWritten, File, Start, IndexFor, NamedMembers, NameTable, TableFits, HeaderPos, MemberBytes, ExtraBytes;
    hide DataBytes, FinalHdr, Encode, ValidMember, Writable;
    WrittenMembers(w);
    KeptAre(w, ms, makemap, k);
    KeptInFile(w, k);
    var m, pos := w.kept[k], HeaderPos(w.cfg, w.kept, Start(w), k);
    MemberFront(w.cfg, m, File(w), pos);
    ContentsFirst(w.cfg, m);
    SubSlice(File(w), pos + HDR_SIZE + |ExtraBytes(w.cfg, m)|, DataBytes(w.cfg, m), 0, |m.contents|);
  }

  lemma ContentsFirst(cfg: Config, m: Member)
    requires !cfg.thin
    ensures |m.contents| <= |DataBytes(cfg, m)| && DataBytes(cfg, m)[0..|m.contents|] == m.contents
  {
  }

  lemma EntryMember(w: Written, ms: seq<Member>, makemap: bool, i: nat)
    requires WrittenBy(w, ms, makemap) && w.index.Indexed? && i < |w.index.entries|
    ensures w.index.entries[i].member < |w.kept| && |Defined(w.kept, |w.kept|)| == |w.index.entries|
    ensures (w.index.entries[i].name, w.index.entries[i].member) == Defined(w.kept, |w.kept|)[i]
  {
    hide ValidWritten, Defined, OrderedUpTo, NamedMembers, NameTable, TableFits;
  }

  /** The header writer of BSD 4.4 archives never finds an extra size that it does not expect. */
  lemma AssertedAll(w: Written, ms: seq<Member>, makemap: bool)
    requires WrittenBy(w, ms, makemap) && AllCarriable(w.cfg, ms) && ValidMembers(w.kept)
    ensures AllAsserted(w.cfg, w.kept)
  {
    hide ValidWritten, IndexFor, TableFits, PathsDetermineNames;
    forall k | 0 <= k < |w.kept|
      ensures ExtraAsserted(w.cfg, w.kept[k])
    {
      KeptAre(w, ms, makemap, k);
      NamedAsserted(w.cfg, ms, Dropped(w, ms) + k);
    }
  }

  lemma NamedAsserted(cfg: Config, ms: seq<Member>, k: nat)
    requires ValidConfig(cfg) && ValidMembers(ms) && TableFits(cfg, ms) && k < |ms| && Carriable(cfg, ms[k])
    ensures ExtraAsserted(cfg, NamedMembers(cfg, ms)[k])
  {
    hide TableFits, RoundUp4, Decimal, Over, SpacePad, IsBsd44Name, ScanUnsigned, Named;
  }

  lemma SymbolAt(w: Written, i: nat)
    requires ValidWritten(w) && w.index.Indexed? && i < |w.index.entries| && w.index.entries[i].member < |w.kept|
    ensures Symbols(w).Some? && i < |Symbols(w).value|
    ensures Symbols(w).value[i]
            == Carsym(w.index.entries[i].name,
                      Offset(Kind(w), w.cfg.thin, w.kept, w.index.entries, TableLength(w.table), i))
  {
    hide ValidWritten, Offset;
  }

  /** Fetching by symbol.  The offset that is read for symbol `i` is the position of the header of
      the member that defines it exactly when the members in front of that member are accounted
      for, and then reading there gives that member. */
  lemma FetchBySymbol(w: Written, ms: seq<Member>, makemap: bool, i: nat)
    requires WrittenBy(w, ms, makemap) && FirstOk(w) && w.index.Indexed? && i < |w.index.entries|
    requires AllCarriable(w.cfg, ms) && PathsDetermineNames(w.cfg, ms)
    ensures ValidConfig(w.cfg) && ValidMembers(w.kept) && AllWritable(w.cfg, w.kept)
    ensures w.index.entries[i].member < |w.kept|
    ensures var k := w.index.entries[i].member;
            var pos := HeaderPos(w.cfg, w.kept, Start(w), k);
            var sym := Symbols(w).value[i];
            && sym.name == Defined(w.kept, |w.kept|)[i].0 && k == Defined(w.kept, |w.kept|)[i].1
            && (sym.offset == pos <==> AllAccounted(Kind(w), w.cfg, w.kept, k))
            && (AllAccounted(Kind(w), w.cfg, w.kept, k) ==>
                ReadHdr(w.cfg, File(w), TableInMemory(w.table), sym.offset) == Ok(ReadBack(w.cfg, w.kept[k], pos)))
  {
    hide ValidWritten, File, Base, TableInMemory, FirstOk, Readable, Carriable, PathsDetermineNames, NamedMembers;
    hide NameTable, TableFits, HeaderPos, ReadHdr, AllAccounted, ReadBack, IndexFor, IndexFits, Symbols, Offset;
    hide Defined, MemberBytes, TableWritable, KindOf;
    WrittenMembers(w);
    WrittenFacts(w);
    EntryMember(w, ms, makemap, i);
    var k := w.index.entries[i].member;
    KeptReadable(w, ms, makemap, k);
    KeptInFile(w, k);
    AssertedAll(w, ms, makemap);
    SymbolAt(w, i);
    OffsetExact(w.cfg, w.meta, w.kept, w.index.entries, w.table, i);
    var pos := HeaderPos(w.cfg, w.kept, Start(w), k);
    ReadsAt(w.cfg, w.kept[k], TableInMemory(w.table), File(w), pos);
  }

  /** On targets with the COFF format every member is accounted for: there the index is right
      whatever the members are, and also when it falls back to 64 bits. */
  lemma CoffAccounted(w: Written, k: nat)
    requires ValidWritten(w) && w.index.Indexed? && w.cfg.style.Coff? && ValidMembers(w.kept) && k <= |w.kept|
    ensures AllAccounted(Kind(w), w.cfg, w.kept, k)
  {
    hide ValidWritten, OffsetsFit;
  }

  /** With the BSD format every member of a full archive is accounted for that comes fresh from the file
      system, and with the 64-bit format as well unless names stand behind their headers. */
  lemma FreshAccounted(w: Written, ms: seq<Member>, makemap: bool, k: nat)
    requires WrittenBy(w, ms, makemap) && !w.cfg.thin && w.index.Indexed? && k <= |w.kept| && ValidMembers(w.kept)
    requires forall j :: 0 <= j < |ms| ==> ms[j].extra == 0
    requires w.cfg.style.Bsd44? ==> Kind(w).BsdMap?
    ensures AllAccounted(Kind(w), w.cfg, w.kept, k)
  {
    hide ValidWritten, IndexFor, TableFits, Kind, ValidMember, NameTable;
    forall j | 0 <= j < k
      ensures Accounted(Kind(w), w.cfg, w.kept[j])
    {
      KeptAre(w, ms, makemap, j);
      NamedAccounted(Kind(w), w.cfg, ms, Dropped(w, ms) + j);
    }
  }

  lemma NamedAccounted(kind: MapKind, cfg: Config, ms: seq<Member>, k: nat)
    requires ValidConfig(cfg) && ValidMembers(ms) && TableFits(cfg, ms) && k < |ms| && ms[k].extra == 0 && !cfg.thin
    requires cfg.style.Bsd44? ==> kind.BsdMap?
    ensures Accounted(kind, cfg, NamedMembers(cfg, ms)[k])
  {
    hide TableFits, RoundUp4, Decimal, Over, SpacePad, Named;
    if cfg.style.Bsd44? && NeedsExtension(cfg, ms[k].name) { ExtendedField(cfg, ms[k]); }
  }

  /** The field that announces a name behind the header is recognised as such. */
  lemma ExtendedField(cfg: Config, m: Member)
    requires ValidConfig(cfg) && ValidMember(m) && cfg.style.Bsd44? && NeedsExtension(cfg, m.name)
    ensures Extended(cfg, Bsd44Named(cfg, m))
  {
    hide RoundUp4;
    var field := Bsd44Named(cfg, m).hdr.name;
    var text := "#1/" + Decimal(RoundUp4(|m.name|));
    DecimalDigits(RoundUp4(|m.name|));
    assert text[0] == '#' && text[1] == '1' && text[2] == '/' && text[3] == Decimal(RoundUp4(|m.name|))[0];
    assert field[0] == text[0] && field[1] == text[1] && field[2] == text[2] && field[3] == text[3];
  }

  /** All sizes can be written, and the file is no larger than a file can be. */
  ghost predicate Storable(cfg: Config, meta: bytes, kept: seq<Member>, index: Index, table: bytes)
    requires |meta| == 32 && ValidMembers(kept) && IndexFits(cfg, kept, index, table)
  {
    TableWritable(table) && AllWritable(cfg, kept) && |Image(cfg, meta, kept, index, table)| < TWO63
  }

  /** A whole run: write an archive, open it, list its members.  Opening is free to take the first member
      for something else; if it cannot, the run succeeds exactly when all sizes fit, and lists the
      members. */
  method WriteAndList(cfg: Config, meta: bytes, members: seq<Member>, makemap: bool)
    returns (ok: bool, kept: seq<Member>, index: Index, elts: seq<Elt>)
    requires ValidConfig(cfg) && ValidMembers(members) && TableFits(cfg, members)
    requires SymbolNamesOk(members) && |meta| == 32 && IndexWillFit(cfg, members)
    requires AllCarriable(cfg, members) && PathsDetermineNames(cfg, members)
    ensures IndexFor(NamedMembers(cfg, members), makemap, kept, index) && ValidMembers(kept)
    ensures IndexFits(cfg, kept, index, NameTable(cfg, members))
    ensures var table := NameTable(cfg, members);
            && (ok <==> Storable(cfg, meta, kept, index, table) && Open(cfg, Image(cfg, meta, kept, index, table)).Ok?)
            && (FirstOk(Written(cfg, meta, kept, index, table)) ==>
                (ok <==> Storable(cfg, meta, kept, index, table)) && (ok ==> ListsAll(kept, members, elts)))
  {
    hide IndexFor, ValidMembers, TableFits, SymbolNamesOk, IndexWillFit, Carriable, PathsDetermineNames, NamedMembers;
    hide NameTable, Image, IndexFits, TableWritable, Writable, FirstOk, ListsAll, WrittenBy, Open;
    var out;
    ok, out, kept, index := WriteArchive(cfg, meta, members, makemap);
    elts := [];
    if !ok {
      return;
    }
    if |out.data| >= TWO63 {
      ok := false;
      return;
    }
    ghost var w := Written(cfg, meta, kept, index, NameTable(cfg, members));
    WroteIt(w, members, makemap);
    ok, elts := ListFile(cfg, out.data);
    if FirstOk(w) { FileListed(w, members, makemap, elts); }
  }

  /** Open an archive and list its members. */
  method ListFile(cfg: Config, file: bytes) returns (ok: bool, elts: seq<Elt>)
    requires ValidConfig(cfg) && |file| < TWO63
    ensures ok <==> Open(cfg, file).Ok?
    ensures ok ==> elts == Walk(cfg, file, Open(cfg, file).value.table, Open(cfg, file).value.first)
  {
    hide Open, Walk;
    elts := [];
    var archive := new InputArchive(cfg, file);
    ok := archive.CheckFormat();
    if ok {
      elts := ListMembers(cfg, file, Artdata(archive.thin, archive.symdefs, archive.table, archive.first));
    }
  }

  lemma FileListed(w: Written, ms: seq<Member>, makemap: bool, elts: seq<Elt>)
    requires WrittenBy(w, ms, makemap) && FirstOk(w) && AllCarriable(w.cfg, ms) && PathsDetermineNames(w.cfg, ms)
    requires ValidConfig(w.cfg) && |File(w)| < TWO63
    requires var art := Open(w.cfg, File(w)); art.Ok? ==> elts == Walk(w.cfg, File(w), art.value.table, art.value.first)
    ensures Open(w.cfg, File(w)).Ok? && ListsAll(w.kept, ms, elts)
  {
    hide WrittenBy, PathsDetermineNames, Open, File, Symbols, TableInMemory, Start, FirstOk, AllCarriable, ReadBacks;
    hide Writable, ListsAll, Walk;
    ArchiveRoundTrip(w, ms, makemap);
    AllListed(w, ms, makemap);
  }

  /** The elements are the last of the members given, in order. */
  ghost predicate ListsAll(kept: seq<Member>, members: seq<Member>, elts: seq<Elt>) {
    && |elts| == |kept| <= |members|
    && forall k :: 0 <= k < |kept| ==>
         var m := members[|members| - |kept| + k];
         elts[k].name == m.name && elts[k].size == |m.contents|
  }

  lemma AllListed(w: Written, ms: seq<Member>, makemap: bool)
    requires WrittenBy(w, ms, makemap) && AllWritable(w.cfg, w.kept)
    ensures ListsAll(w.kept, ms, ReadBacks(w.cfg, w.kept, Start(w)))
  {
    hide ValidWritten, IndexFor, TableFits, NamedMembers, NameTable, FinalHdr, ExtraBytes, HeaderPos, Start;
    KeptFewer(w, ms, makemap);
    forall k | 0 <= k < |w.kept|
      ensures w.kept[k].name == ms[|ms| - |w.kept| + k].name && w.kept[k].contents == ms[|ms| - |w.kept| + k].contents
    {
      KeptAre(w, ms, makemap, k);
    }
  }

  lemma WroteIt(w: Written, ms: seq<Member>, makemap: bool)
    requires ValidConfig(w.cfg) && ValidMembers(ms) && TableFits(w.cfg, ms) && |w.meta| == 32
    requires w.table == NameTable(w.cfg, ms)
    requires ValidMembers(w.kept) && IndexFits(w.cfg, w.kept, w.index, w.table) && TableWritable(w.table)
    requires AllWritable(w.cfg, w.kept)
    requires IndexFor(NamedMembers(w.cfg, ms), makemap, w.kept, w.index)
    requires |Image(w.cfg, w.meta, w.kept, w.index, w.table)| < TWO63
    ensures WrittenBy(w, ms, makemap)
  {
    hide IndexFor, IndexFits, TableWritable, ValidMembers, Writable, Image, TableFits, Table, NamedMembers;
  }

  // ---------------------------------------------------------------------------------------
  // In terms of names
  // ---------------------------------------------------------------------------------------

  /** The names that the first member of an archive without a name table must not have. */
  predicate Reserved(name: bytes) {
    name == "ARFILENAMES" || "__.SYMDEF" <= name || "________" <= name
  }

  /** A field that spells a name which is not reserved is not taken for anything else. */
  lemma SpelledPlain(cfg: Config, field: bytes, name: bytes)
    requires ValidConfig(cfg) && Spells(cfg, field, name) && '/' !in name && name != [] && !Reserved(name)
    ensures |field| == 16 && field[0] != '/' && field != "ARFILENAMES/    "
    ensures field != "__.SYMDEF       " && field != "__.SYMDEF/      " && !IsEcoff(field) && field != "#1/20           "
  {
    hide IsEcoff, IsBsd44Name, Spells;
    FirstByte(cfg, field, name);
    PrefixOrPad(cfg, field, name, "__.SYMDEF");
    PrefixOrPad(cfg, field, name, "________");
    TableNameOnly(cfg, field, name);
    Unextended(cfg, field, name);
    Fronts(field);
  }

  lemma FirstByte(cfg: Config, field: bytes, name: bytes)
    requires ValidConfig(cfg) && Spells(cfg, field, name) && '/' !in name && name != []
    ensures field[0] != '/'
  {
    hide IsBsd44Name;
    assert field[0] == field[..|name|][0] == name[0] && name[0] in name;
  }

  lemma Unextended(cfg: Config, field: bytes, name: bytes)
    requires ValidConfig(cfg) && Spells(cfg, field, name)
    ensures |field| == 16 && !IsBsd44Name(field)
  {
  }

  lemma Fronts(field: bytes)
    requires |field| == 16
    ensures IsEcoff(field) ==> "________" <= field
    ensures field == "__.SYMDEF       " || field == "__.SYMDEF/      " ==> "__.SYMDEF" <= field
    ensures field == "#1/20           " ==> IsBsd44Name(field)
  {
  }

  /** The name field of a name table spells one name only. */
  lemma TableNameOnly(cfg: Config, field: bytes, name: bytes)
    requires ValidConfig(cfg) && Spells(cfg, field, name) && '/' !in name
    ensures field == "ARFILENAMES/    " ==> name == "ARFILENAMES"
  {
    hide Spells;
    PrefixOrPad(cfg, field, name, "ARFILENAMES");
    NoSlashInName(cfg, field, name);
    if field == "ARFILENAMES/    " { assert field[11] == '/'; }
  }

  /** Text that starts a field starts its name, if it has neither blanks nor slashes. */
  lemma PrefixOrPad(cfg: Config, field: bytes, name: bytes, text: bytes)
    requires ValidConfig(cfg) && Spells(cfg, field, name) && |text| <= 14 && ' ' !in text && '/' !in text
    ensures text <= field ==> text <= name
  {
    hide IsBsd44Name;
    if |name| < |text| {
      assert text[|name|] in text && field[|name|] == cfg.pad;
    } else if text <= field {
      assert text == field[..|text|] == field[..|name|][..|text|];
    }
  }

  /** A slash in a field ends the name or comes behind it. */
  lemma NoSlashInName(cfg: Config, field: bytes, name: bytes)
    requires ValidConfig(cfg) && Spells(cfg, field, name) && '/' !in name
    ensures |field| == 16 && forall i :: 0 <= i < |name| ==> field[i] != '/'
  {
    hide IsBsd44Name;
    forall i | 0 <= i < |name|
      ensures field[i] != '/'
    {
      assert field[..|name|][i] == name[i] && name[i] in name;
    }
  }

  /** A name behind its header is announced by its padded length. */
  lemma ExtendedPlain(cfg: Config, m: Member, field: bytes)
    requires ValidConfig(cfg) && ValidMember(m) && |field| == 16 && RoundUp4(|m.name|) < TWO31
    requires m.hdr.name == Over(field, SpacePad("#1/" + Decimal(RoundUp4(|m.name|)), cfg.maxName))
    ensures m.hdr.name[0] == '#' && IsBsd44Name(m.hdr.name)
    ensures m.hdr.name == "#1/20           " ==> RoundUp4(|m.name|) == 20
  {
    hide RoundUp4, Decimal, Over, SpacePad;
    ExtensionHeader(cfg, m.hdr, field, RoundUp4(|m.name|));
    if m.hdr.name == "#1/20           " { TwentyAnnounced(m.hdr); }
  }

  lemma TwentyAnnounced(h: Hdr)
    requires WellFormed(h) && h.name == "#1/20           "
    ensures Atoi(Encode(h)[3..]) == 20
  {
    hide Encode, ScanNumber, CString, Atoi;
    assert Decimal(20) == "20";
    assert h.name == "#1/" + (Decimal(20) + "           ") + [];
    NumberInHeader(h, "#1/", 20, "           ", []);
    AtoiOf(Encode(h)[3..], 20);
  }

  /** A first member whose name is not reserved is not taken for an index or a name table. */
  lemma PlainFirst(w: Written, ms: seq<Member>, makemap: bool)
    requires WrittenBy(w, ms, makemap) && AllCarriable(w.cfg, ms) && ValidMembers(w.kept)
    requires w.kept != [] ==> !Reserved(w.kept[0].name)
    ensures FirstOk(w)
  {
    hide ValidWritten, IndexFor, TableFits, IsEcoff, Reserved, NamedMembers, NameTable, Carriable, ValidMember;
    if w.table == [] && w.kept != [] {
      KeptAre(w, ms, makemap, 0);
      PlainNamed(w.cfg, ms, Dropped(w, ms));
      SameFirst(w, NamedMembers(w.cfg, ms)[Dropped(w, ms)]);
    }
  }

  lemma SameFirst(w: Written, m: Member)
    requires w.kept != [] && w.kept[0] == m && ValidMember(m) && PlainMember(w.cfg, m)
    ensures Unmistakable(w)
  {
    hide IsEcoff;
  }

  /** The header of a member is not that of an index or a name table. */
  predicate PlainMember(cfg: Config, m: Member)
    requires ValidMember(m)
  {
    var field := m.hdr.name;
    && field[0] != '/' && field != "ARFILENAMES/    "
    && field != "__.SYMDEF       " && field != "__.SYMDEF/      " && !IsEcoff(field)
    && (field == "#1/20           " ==> Extended(cfg, m) && |ExtraBytes(cfg, m)| >= 20 && !("__.SYMDEF" <= m.name))
  }

  lemma PlainNamed(cfg: Config, ms: seq<Member>, k: nat)
    requires ValidConfig(cfg) && ValidMembers(ms) && TableFits(cfg, ms) && k < |ms| && Carriable(cfg, ms[k])
    requires NameTable(cfg, ms) == [] && !Reserved(ms[k].name)
    ensures PlainMember(cfg, NamedMembers(cfg, ms)[k])
  {
    hide IsEcoff, Spells, Decimal, Over, SpacePad, RoundUp4, ScanUnsigned, NulFree, TableFits, Table, FixName, Reserved;
    hide TableOffset, IsBsd44Name;
    var m := NamedMembers(cfg, ms)[k];
    if cfg.style.Bsd44? {
      if NeedsExtension(cfg, ms[k].name) {
        ExtendedPlain(cfg, m, ms[k].hdr.name);
        ExtensionPlain(cfg, m);
      } else {
        SpelledPlain(cfg, m.hdr.name, m.name);
      }
    } else {
      if NeedsTable(cfg, ms[k]) { OffsetBelow(cfg, ms, k); }
      SpelledPlain(cfg, m.hdr.name, m.name);
    }
  }

  lemma ExtensionPlain(cfg: Config, m: Member)
    requires ValidMember(m) && cfg.style.Bsd44? && IsBsd44Name(m.hdr.name) && !Reserved(m.name)
    requires m.hdr.name == "#1/20           " ==> RoundUp4(|m.name|) == 20
    ensures PlainMember(cfg, m)
  {
    hide RoundUp4;
  }

  /** What stands behind the last slash of a path: `lbasename`. */
  function BaseName(path: bytes): (r: bytes)
    ensures '/' !in r && |r| <= |path| && r == path[|path| - |r|..]
    ensures '/' !in path ==> r == path
  {
    if path == [] || path[|path| - 1] == '/' then []
    else BaseName(path[..|path| - 1]) + [path[|path| - 1]]
  }

  /** The name that a full archive stores for a file: its base name, or its path if that is asked for. */
  predicate NamedAfter(name: bytes, file: bytes) {
    name == BaseName(file) || name == file
  }

  /** A member straight from the file system, with a name that its archive can carry. */
  predicate Fresh(cfg: Config, m: Member)
    requires ValidConfig(cfg)
  {
    && ValidMember(m) && m.hdr.fmag == ARFMAG && m.origin == 0 && m.hdr.name == FreshName(cfg, m.name)
    && SizePad(|m.contents|) == Some(m.hdr.size) && m.extra == 0
    && NamedAfter(m.name, m.file) && NameOk(cfg, m.name) && !Reserved(m.name)
  }

  predicate AllFresh(cfg: Config, ms: seq<Member>) {
    ValidConfig(cfg) && forall k :: 0 <= k < |ms| ==> Fresh(cfg, ms[k])
  }

  /** Round trip in terms of names: any list of fresh members with names that the format can carry and
      that are not reserved, written as a full archive, opens again and yields the same names and the
      same contents, in order, all of them and nothing more. */
  lemma FreshRoundTrip(w: Written, ms: seq<Member>, makemap: bool)
    requires WrittenBy(w, ms, makemap) && !w.cfg.thin && AllFresh(w.cfg, ms)
    ensures ValidConfig(w.cfg) && |File(w)| < TWO63
    ensures var art := Artdata(false, Symbols(w), TableInMemory(w.table), Start(w));
            var elts := Walk(w.cfg, File(w), art.table, art.first);
            && Open(w.cfg, File(w)) == Ok(art) && |elts| == |ms|
            && forall k :: 0 <= k < |ms| ==> ElementBack(w, elts[k], ms[k])
  {
    hide WrittenBy, ValidWritten, File, Start, Symbols, TableInMemory, FirstOk, Open, Walk, AllFresh, ReadBacks;
    hide Writable, ValidMember, AllCarriable, PathsDetermineNames, ElementBack;
    NoneDropped(w, ms, makemap);
    KeptValid(w, ms, makemap);
    FreshFirst(w, ms, makemap);
    ArchiveRoundTrip(w, ms, makemap);
    forall k | 0 <= k < |ms|
      ensures ElementBack(w, ReadBacks(w.cfg, w.kept, Start(w))[k], ms[k])
    {
      ElementReturned(w, ms, makemap, k);
    }
  }

  /** No fresh member is taken for an old index. */
  lemma NoneDropped(w: Written, ms: seq<Member>, makemap: bool)
    requires WrittenBy(w, ms, makemap) && AllFresh(w.cfg, ms)
    ensures |w.kept| == |ms|
  {
    hide ValidWritten, TableFits, NamedMembers, Lists, Defined, ValidMap, Fresh;
    if ms != [] {
      NamedSame(w.cfg, ms, 0);
      assert NamedMembers(w.cfg, ms)[0].file == ms[0].file;
      NotSymdefFile(w.cfg, ms[0]);
    }
  }

  lemma NotSymdefFile(cfg: Config, m: Member)
    requires ValidConfig(cfg) && Fresh(cfg, m)
    ensures m.file != "__.SYMDEF"
  {
    hide SizePad, NameOk, FreshName, BaseName;
    assert '/' !in "__.SYMDEF";
  }

  lemma ElementReturned(w: Written, ms: seq<Member>, makemap: bool, k: nat)
    requires WrittenBy(w, ms, makemap) && k < |w.kept| && !w.cfg.thin
    requires |w.kept| == |ms|
    ensures ValidWritten(w) && AllWritable(w.cfg, w.kept)
    ensures ElementBack(w, ReadBacks(w.cfg, w.kept, Start(w))[k], ms[k])
  {
    hide WrittenBy, ValidWritten, File, Start, ReadBacks, ReadBack, HeaderPos, Writable, ValidMember, ElementBack;
    KeptValid(w, ms, makemap);
    ContentsBack(w, ms, makemap, k);
    assert Dropped(w, ms) + k == k;
    ItIsBack(w, ReadBacks(w.cfg, w.kept, Start(w))[k], ms[k]);
  }

  lemma ItIsBack(w: Written, e: Elt, m: Member)
    requires ValidWritten(w)
    requires e.name == m.name && e.data + e.size <= |File(w)| && File(w)[e.data..e.data + e.size] == m.contents
    ensures ElementBack(w, e, m)
  {
    hide ValidWritten, File;
  }

  /** An element has a member's name, and its contents are in the file. */
  ghost predicate ElementBack(w: Written, e: Elt, m: Member)
    requires ValidWritten(w)
  {
    e.name == m.name && e.data + e.size <= |File(w)| && File(w)[e.data..e.data + e.size] == m.contents
  }

  lemma FreshFirst(w: Written, ms: seq<Member>, makemap: bool)
    requires WrittenBy(w, ms, makemap) && !w.cfg.thin && AllFresh(w.cfg, ms)
    ensures ValidMembers(w.kept) && FirstOk(w) && AllCarriable(w.cfg, ms) && PathsDetermineNames(w.cfg, ms)
  {
    hide WrittenBy, ValidWritten, FirstOk, Reserved, AllFresh, AllCarriable, ValidMember;
    KeptValid(w, ms, makemap);
    FreshAll(w.cfg, ms);
    if w.kept != [] {
      KeptAre(w, ms, makemap, 0);
      NotReserved(w.cfg, ms, Dropped(w, ms));
    }
    PlainFirst(w, ms, makemap);
  }

  lemma KeptValid(w: Written, ms: seq<Member>, makemap: bool)
    requires WrittenBy(w, ms, makemap)
    ensures ValidWritten(w) && ValidConfig(w.cfg) && ValidMembers(w.kept) && AllWritable(w.cfg, w.kept)
    ensures |File(w)| < TWO63
  {
    hide ValidWritten, IndexFor, TableFits, NamedMembers, NameTable, ValidMember, Writable;
    WrittenMembers(w);
  }

  lemma FreshAll(cfg: Config, ms: seq<Member>)
    requires ValidConfig(cfg) && AllFresh(cfg, ms)
    ensures AllCarriable(cfg, ms)
  {
    hide Carriable;
    forall k | 0 <= k < |ms|
      ensures Carriable(cfg, ms[k])
    {
      FreshOne(cfg, ms[k]);
    }
  }

  lemma FreshOne(cfg: Config, m: Member)
    requires ValidConfig(cfg) && Fresh(cfg, m)
    ensures Carriable(cfg, m)
  {
    hide SizePad, NameOk, FreshName, Carriable, Reserved;
    SizeFieldRoundTrip(|m.contents|);
    FreshCarriable(cfg, m);
  }

  /** Fetching by symbol in terms of names: the index of such an archive leads from every symbol to the
      member that defines it, unless it is a 64-bit one with names behind their headers. */
  lemma FreshIndex(w: Written, ms: seq<Member>, makemap: bool, i: nat)
    requires WrittenBy(w, ms, makemap) && !w.cfg.thin && AllFresh(w.cfg, ms)
    requires w.index.Indexed? && i < |w.index.entries| && (w.cfg.style.Bsd44? ==> Kind(w).BsdMap?)
    ensures ValidConfig(w.cfg) && AllWritable(w.cfg, w.kept) && w.index.entries[i].member < |w.kept|
    ensures var k := w.index.entries[i].member;
            var pos := HeaderPos(w.cfg, w.kept, Start(w), k);
            && Symbols(w).value[i].name == Defined(w.kept, |w.kept|)[i].0 && k == Defined(w.kept, |w.kept|)[i].1
            && Symbols(w).value[i].offset == pos
            && ReadHdr(w.cfg, File(w), TableInMemory(w.table), pos) == Ok(ReadBack(w.cfg, w.kept[k], pos))
  {
    hide WrittenBy, ValidWritten, AllAccounted, FirstOk, File, Start, TableInMemory, PathsDetermineNames, HeaderPos;
    hide ReadHdr, Kind, Symbols, Defined, ReadBack, ValidMember;
    KeptValid(w, ms, makemap);
    FreshFirst(w, ms, makemap);
    FetchBySymbol(w, ms, makemap, i);
    forall j | 0 <= j < |ms|
      ensures ms[j].extra == 0
    {
      assert Fresh(w.cfg, ms[j]);
    }
    FreshAccounted(w, ms, makemap, w.index.entries[i].member);
  }

  lemma NotReserved(cfg: Config, ms: seq<Member>, k: nat)
    requires AllFresh(cfg, ms) && k < |ms|
    ensures !Reserved(ms[k].name)
  {
    hide SizePad, NameOk, FreshName, Reserved;
    assert Fresh(cfg, ms[k]);
  }
}
