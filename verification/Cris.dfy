/** The relocation records of CRIS a.out files. */
module Cris {
  import opened Bytes
  import opened AoutField
  import opened AoutTypes
  import AoutReloc

  const RELOC_EXT_SIZE: nat := 12
  const EXTERN_BIT: nat := 0x80

  datatype Kind = Text | Data | Bss

  /** The symbol of a relocation: of the absolute section, of a section, or one with a place in the
      symbol table; `external` says that it is undefined, global or weak. */
  datatype Symbol = AbsSymbol | SectionSymbol(kind: Kind) | Named(index: nat, external: bool)

  /** The addresses of the sections. */
  datatype Sections = Sections(text: int, data: int, bss: int)

  function Vma(secs: Sections, k: Kind): int {
    match k
    case Text => secs.text
    case Data => secs.data
    case Bss => secs.bss
  }

  function TargetIndex(k: Kind): nat {
    match k
    case Text => N_TEXT
    case Data => N_DATA
    case Bss => N_BSS
  }

  /** A relocation in memory; `symbol` is what `sym_ptr_ptr` leads to. */
  datatype Arelent = Arelent(address: int, symbol: Symbol, kind: nat, addend: int)

  // ---------------------------------------------------------------------------------------
  // Writing
  // ---------------------------------------------------------------------------------------

  function IndexOut(s: Symbol): nat {
    match s
    case AbsSymbol => N_ABS
    case SectionSymbol(k) => TargetIndex(k)
    case Named(index, _) => index
  }

  predicate ExternOut(s: Symbol) {
    s.Named? && s.external
  }

  function AddendOut(secs: Sections, g: Arelent): int {
    g.addend + (if g.symbol.SectionSymbol? then Vma(secs, g.symbol.kind) else 0)
  }

  /** The byte with the type and the external bit. */
  function TypeByte(g: Arelent): byte {
    var low := g.kind % 256;
    (if ExternOut(g.symbol) && low < EXTERN_BIT then low + EXTERN_BIT else low) as char
  }

  function IndexBytes(index: nat): (r: bytes)
    ensures |r| == 3
  {
    Capacity3();
    PutLittle(Rem(index, Capacity(3)), 3)
  }

  lemma Capacity3()
    ensures Capacity(3) == 0x100_0000
  {
    assert Capacity(3) == 256 * 256 * Capacity(1);
  }

  function Record(secs: Sections, g: Arelent): (r: bytes)
    ensures |r| == RELOC_EXT_SIZE
  {
    Put32(false, Rem(g.address, TWO32)) + IndexBytes(IndexOut(g.symbol)) + [TypeByte(g)]
    + Put32(false, Rem(AddendOut(secs, g), TWO32))
  }

  /** The function that writes a record: field by field in place, and an error for a type that there
      is no relocation for. */
  method SwapOut(secs: Sections, g: Arelent, natptr: array<byte>) returns (ok: bool)
    requires natptr.Length == RELOC_EXT_SIZE
    modifies natptr
    ensures natptr[..] == Record(secs, g) && (ok <==> g.kind <= 2)
  {
    hide Put32, Rem, IndexBytes, TypeByte, PutLittle;
    PutField(natptr, 0, Put32(false, Rem(g.address, TWO32)));
    var addend := g.addend;
    if g.symbol.SectionSymbol? { addend := addend + Vma(secs, g.symbol.kind); }
    var index;
    match g.symbol {
      case AbsSymbol => index := N_ABS;
      case Named(i, _) => index := i;
      case SectionSymbol(k) => index := TargetIndex(k);
    }
    ok := g.kind <= 2;
    PutField(natptr, 4, IndexBytes(index));
    natptr[7] := TypeByte(g);
    PutField(natptr, 8, Put32(false, Rem(addend, TWO32)));
  }

  method PutField(natptr: array<byte>, at: nat, field: bytes)
    requires at + |field| <= natptr.Length
    modifies natptr
    ensures natptr[..] == old(natptr[..at]) + field + old(natptr[at + |field|..])
  {
    for i := 0 to |field|
      invariant natptr[..] == old(natptr[..at]) + field[..i] + old(natptr[at + i..])
    {
      natptr[at + i] := field[i];
    }
  }

  // ---------------------------------------------------------------------------------------
  // Reading
  // ---------------------------------------------------------------------------------------

  /** The symbol and addend of a record, and whether its index is in order. */
  function SymbolIn(index: nat, external: bool, symcount: nat): (Symbol, bool) {
    if external then
      if index > symcount then (AbsSymbol, false)
      else if index < symcount then (Named(index, true), true) else (AbsSymbol, true)
    else if index == N_TEXT || index == N_TEXT + 1 then (SectionSymbol(Text), true)
    else if index == N_DATA || index == N_DATA + 1 then (SectionSymbol(Data), true)
    else if index == N_BSS || index == N_BSS + 1 then (SectionSymbol(Bss), true)
    else (AbsSymbol, true)
  }

  /** What is read back from a record, and whether without an error. */
  function ReadRecord(secs: Sections, record: bytes, symcount: nat): (Arelent, bool)
    requires |record| == RELOC_EXT_SIZE
  {
    var t := record[7] as int;
    var (symbol, ok) := SymbolIn(GetLittle(record[4..7]), t >= EXTERN_BIT, symcount);
    var ad := AoutReloc.Signed32(Get32(false, record[8..12]));
    (Arelent(AoutReloc.Signed32(Get32(false, record[0..4])), symbol, t % 4,
             if symbol.SectionSymbol? then ad - Vma(secs, symbol.kind) else ad),
     ok && t % 4 <= 2)
  }

  /** A relocation that is being filled in. */
  class Cache {
    var address: int
    var symbol: Symbol
    var kind: nat
    var addend: int

    constructor ()
    {
      address, symbol, kind, addend := 0, AbsSymbol, 0, 0;
    }

    function Value(): Arelent
      reads this
    {
      Arelent(address, symbol, kind, addend)
    }

    /** The function that reads a record. */
    method SwapIn(secs: Sections, natptr: array<byte>, symcount: nat) returns (ok: bool)
      requires natptr.Length == RELOC_EXT_SIZE
      modifies this
      ensures (Value(), ok) == ReadRecord(secs, natptr[..], symcount)
    {
      hide Get32, AoutReloc.Signed32, GetLittle;
      address := AoutReloc.Signed32(Get32(false, natptr[0..4]));
      var index := GetLittle(natptr[4..7]);
      var external := natptr[7] as int >= EXTERN_BIT;
      kind := natptr[7] as int % 4;
      ok := kind <= 2;
      if external && index > symcount {
        ok := false;
        external, index := false, N_ABS;
      }
      MoveAddress(secs, AoutReloc.Signed32(Get32(false, natptr[8..12])), index, external, symcount);
      assert natptr[0..4] == natptr[..][0..4] && natptr[4..7] == natptr[..][4..7] && natptr[8..12] == natptr[..][8..12];
    }

    /** `MOVE_ADDRESS` */
    method MoveAddress(secs: Sections, ad: int, index: nat, external: bool, symcount: nat)
      modifies this`symbol, this`addend
      ensures symbol == if external && index > symcount then AbsSymbol else SymbolIn(index, external, symcount).0
      ensures addend == if symbol.SectionSymbol? then ad - Vma(secs, symbol.kind) else ad
    {
      if external {
        symbol := if index < symcount then Named(index, true) else AbsSymbol;
        addend := ad;
      } else if index == N_TEXT || index == N_TEXT + 1 {
        symbol, addend := SectionSymbol(Text), ad - secs.text;
      } else if index == N_DATA || index == N_DATA + 1 {
        symbol, addend := SectionSymbol(Data), ad - secs.data;
      } else if index == N_BSS || index == N_BSS + 1 {
        symbol, addend := SectionSymbol(Bss), ad - secs.bss;
      } else {
        symbol, addend := AbsSymbol, ad;
      }
    }
  }

  // ---------------------------------------------------------------------------------------
  // Round trip
  // ---------------------------------------------------------------------------------------

  predicate SameWord(x: int, y: int) {
    Rem(x - y, TWO32) == 0
  }

  predicate Restored(g: Arelent, r: Arelent) {
    SameWord(r.address, g.address) && r.symbol == g.symbol && r.kind == g.kind && SameWord(r.addend, g.addend)
  }

  /** The relocations that a record can carry. */
  predicate Carried(g: Arelent, symcount: nat) {
    && g.kind <= 2
    && (g.symbol.Named? ==> g.symbol.external && g.symbol.index < symcount && g.symbol.index < 0x100_0000)
  }

  /** A relocation that is written and read again, without errors, is the same up to whole words
      exactly when its type is one of the three that there are and its symbol is that of a section, or
      is undefined, global or weak with an index in the table and in three bytes. */
  lemma RoundTripExact(secs: Sections, g: Arelent, symcount: nat)
    ensures var (r, ok) := ReadRecord(secs, Record(secs, g), symcount);
            ok && Restored(g, r) <==> Carried(g, symcount)
  {
    hide Put32, Get32, Rem, IndexBytes, TypeByte, PutLittle, GetLittle, AoutReloc.Signed32, SameWord;
    var record := Record(secs, g);
    var (r, ok) := ReadRecord(secs, record, symcount);
    RecordFields(secs, g);
    WordBack(g.address);
    WordBack(AddendOut(secs, g));
    IndexBack(IndexOut(g.symbol));
    if g.kind <= 2 {
      TypeBack(g);
      SymbolBack(g.symbol, symcount);
      if r.symbol == g.symbol { AddendBack(secs, g, r.addend); }
    }
  }

  /** The test for a bad index lets the first index behind the table through: such a record is read
      without an error, but as one against the absolute section. */
  lemma IndexAtEnd(secs: Sections, g: Arelent, symcount: nat)
    requires g.kind <= 2 && g.symbol == Named(symcount, true) && symcount < 0x100_0000
    ensures var (r, ok) := ReadRecord(secs, Record(secs, g), symcount);
            ok && r.symbol == AbsSymbol
  {
    hide Put32, Get32, Rem, IndexBytes, TypeByte, PutLittle, GetLittle, AoutReloc.Signed32;
    RecordFields(secs, g);
    IndexBack(symcount);
    ModUnique(symcount, 0x100_0000, 0, symcount);
    TypeBack(g);
  }

  lemma RecordFields(secs: Sections, g: Arelent)
    ensures var record := Record(secs, g);
            && record[0..4] == Put32(false, Rem(g.address, TWO32)) && record[4..7] == IndexBytes(IndexOut(g.symbol))
            && record[7] == TypeByte(g) && record[8..12] == Put32(false, Rem(AddendOut(secs, g), TWO32))
  {
    hide Put32, Rem, IndexBytes, TypeByte;
  }

  lemma WordBack(x: int)
    ensures SameWord(AoutReloc.Signed32(Get32(false, Put32(false, Rem(x, TWO32)))), x)
  {
    hide Put32, Get32, Rem, AoutReloc.Signed32;
    var w := Rem(x, TWO32);
    Word32RoundTrip(false, w);
    AoutReloc.Signed32Same(w);
    DivRem(x, TWO32);
    Distribute(0, Quot(x, TWO32), TWO32);
    AddMultiple(AoutReloc.Signed32(w) - w, 0 - Quot(x, TWO32), TWO32);
  }

  lemma IndexBack(index: nat)
    ensures GetLittle(IndexBytes(index)) == Rem(index, 0x100_0000)
  {
    hide Rem, PutLittle, GetLittle, Capacity;
    Capacity3();
    LittleRoundTrip(Rem(index, Capacity(3)), 3);
  }

  lemma TypeBack(g: Arelent)
    requires g.kind <= 2
    ensures var t := TypeByte(g) as int; t % 4 == g.kind && (t >= EXTERN_BIT <==> ExternOut(g.symbol))
  {
  }

  lemma SymbolBack(s: Symbol, symcount: nat)
    ensures var (r, ok) := SymbolIn(Rem(IndexOut(s), 0x100_0000), ExternOut(s), symcount);
            ok && r == s <==> (s.Named? ==> s.external && s.index < symcount && s.index < 0x100_0000)
  {
    var i := IndexOut(s);
    if i < 0x100_0000 { ModUnique(i, 0x100_0000, 0, i); }
  }

  /** The address of the section, added when the record is written, is taken off again. */
  lemma AddendBack(secs: Sections, g: Arelent, addend: int)
    requires var ad := AoutReloc.Signed32(Get32(false, Put32(false, Rem(AddendOut(secs, g), TWO32))));
             && SameWord(ad, AddendOut(secs, g))
             && addend == if g.symbol.SectionSymbol? then ad - Vma(secs, g.symbol.kind) else ad
    ensures SameWord(addend, g.addend)
  {
    hide Put32, Get32, AoutReloc.Signed32, Rem;
  }
}
