/** Relocating the contents of an a.out input section, for a relocatable and for a final link. */
module AoutReloc {
  import opened Bytes
  import opened AoutField

  // ---------------------------------------------------------------------------------------
  // Sections, symbols and relocations
  // ---------------------------------------------------------------------------------------

  /** The sections that a relocation can name. */
  datatype Kind = Text | Data | Bss | Abs

  /** A section: its own address, the address of its output section and its offset there. */
  datatype Place = Place(vma: int, outVma: int, outOff: nat)

  datatype Places = Places(text: Place, data: Place, bss: Place)

  function At(ps: Places, k: Kind): Place {
    match k
    case Text => ps.text
    case Data => ps.data
    case Bss => ps.bss
    case Abs => Place(0, 0, 0)
  }

  /** How far a section moved. */
  function MovedBy(p: Place): int {
    p.outVma + p.outOff - p.vma
  }

  /** What the linker knows of a symbol.  A symbol that is not defined has a record of its own in a
      relocatable output file. */
  datatype Hash = Defined(kind: Kind, value: int, off: nat) | Other(index: nat)

  datatype Howto = Howto(size: nat, bits: nat, shift: nat, pcrel: bool, pcrelOffset: bool)

  datatype Target = Section(kind: Kind) | Symbol(index: nat)

  /** A relocation record.  Only extended records have an addend of their own. */
  datatype Reloc = Reloc(addr: nat, howto: Howto, target: Target, addend: int)

  /** One input section being linked; `ext` says that its relocations are extended ones. */
  datatype Link = Link(ext: bool, big: bool, input: Kind, places: Places, hashes: seq<Hash>)

  function Own(l: Link): Place {
    At(l.places, l.input)
  }

  /** The address that a symbol gets; zero if it is not defined. */
  function Address(l: Link, h: Hash): int {
    match h
    case Defined(kind, value, off) => value + At(l.places, kind).outVma + off
    case Other(_) => 0
  }

  predicate ValidReloc(l: Link, r: Reloc, size: nat) {
    && r.howto.size <= 8 && r.howto.bits <= 8 * r.howto.size && r.addr + r.howto.size <= size
    && (if l.ext then r.howto.shift + r.howto.bits <= 32 && Signed32(r.addend) == r.addend else r.howto.shift == 0)
    && (r.target.Symbol? ==> r.target.index < |l.hashes|)
  }

  predicate ValidRelocs(l: Link, rs: seq<Reloc>, size: nat) {
    forall k :: 0 <= k < |rs| ==> ValidReloc(l, rs[k], size)
  }

  /** What a word holds after `PUT_WORD` and `GET_SWORD`. */
  function Signed32(x: int): (r: int)
    ensures 0 - TWO31 <= r < TWO31
  {
    var w := Rem(x, TWO32);
    if w < TWO31 then w else w - TWO32
  }

  lemma Signed32Same(x: int)
    ensures Rem(Signed32(x) - x, TWO32) == 0
  {
    hide Rem, Quot;
    DivRem(x, TWO32);
    var q := Quot(x, TWO32);
    var k := if Rem(x, TWO32) < TWO31 then -q else -q - 1;
    ModUnique(Signed32(x) - x, TWO32, k, 0);
  }

  // ---------------------------------------------------------------------------------------
  // A relocatable link
  // ---------------------------------------------------------------------------------------

  /** What a relocatable link adds to the contents, or to the addend of an extended record. */
  function PartialShift(l: Link, r: Reloc): int
    requires r.target.Symbol? ==> r.target.index < |l.hashes|
  {
    var base := match r.target
                case Section(k) => MovedBy(At(l.places, k))
                case Symbol(i) => Address(l, l.hashes[i]);
    if r.howto.pcrel && !(l.ext && r.howto.pcrelOffset) then base - MovedBy(Own(l)) else base
  }

  /** The record that the output file gets. */
  function PartialReloc(l: Link, r: Reloc): (s: Reloc)
    requires r.target.Symbol? ==> r.target.index < |l.hashes|
  {
    var target := match r.target
                  case Section(k) => r.target
                  case Symbol(i) =>
                    match l.hashes[i]
                    case Defined(kind, _, _) => Section(kind)
                    case Other(index) => Symbol(index);
    Reloc(Rem(r.addr + Own(l).outOff, TWO32), r.howto, target,
          if l.ext then Signed32(r.addend + PartialShift(l, r)) else r.addend)
  }

  function PartialRelocs(l: Link, rs: seq<Reloc>): (r: seq<Reloc>)
    requires forall k :: 0 <= k < |rs| && rs[k].target.Symbol? ==> rs[k].target.index < |l.hashes|
    ensures |r| == |rs|
    ensures forall k :: 0 <= k < |rs| ==> r[k] == PartialReloc(l, rs[k])
  {
    seq(|rs|, k requires 0 <= k < |rs| => PartialReloc(l, rs[k]))
  }

  function PartialEdit(l: Link, r: Reloc): (e: Edit)
    requires r.target.Symbol? ==> r.target.index < |l.hashes|
  {
    Edit(r.addr, r.howto.size, r.howto.bits, r.howto.shift, true, PartialShift(l, r))
  }

  /** The contents are changed by standard relocations only. */
  function PartialEdits(l: Link, rs: seq<Reloc>, size: nat): (es: seq<Edit>)
    requires ValidRelocs(l, rs, size)
    ensures |es| == (if l.ext then 0 else |rs|) && EditsFit(es, 0, size)
    ensures forall k :: 0 <= k < |es| ==> es[k] == PartialEdit(l, rs[k])
  {
    if l.ext then [] else seq(|rs|, k requires 0 <= k < |rs| => PartialEdit(l, rs[k]))
  }

  function PartialContents(l: Link, c: bytes, rs: seq<Reloc>): (r: bytes)
    requires ValidRelocs(l, rs, |c|)
    ensures |r| == |c|
  {
    var es := PartialEdits(l, rs, |c|);
    ApplyAll(l.big, c, es, |es|)
  }

  // ---------------------------------------------------------------------------------------
  // A final link
  // ---------------------------------------------------------------------------------------

  /** What `_bfd_final_link_relocate` passes on for this relocation. */
  function FinalValue(l: Link, r: Reloc): int
    requires r.target.Symbol? ==> r.target.index < |l.hashes|
  {
    var base := match r.target
                case Section(k) => MovedBy(At(l.places, k)) + (if r.howto.pcrel then Own(l).vma else 0)
                case Symbol(i) => Address(l, l.hashes[i]);
    var value := base + (if l.ext then r.addend else 0);
    if r.howto.pcrel then
      value - (Own(l).outVma + Own(l).outOff) - (if r.howto.pcrelOffset then r.addr else 0)
    else value
  }

  function FinalEdit(l: Link, r: Reloc): (e: Edit)
    requires r.target.Symbol? ==> r.target.index < |l.hashes|
  {
    Edit(r.addr, r.howto.size, r.howto.bits, r.howto.shift, !l.ext, FinalValue(l, r))
  }

  function FinalEdits(l: Link, rs: seq<Reloc>, size: nat): (es: seq<Edit>)
    requires ValidRelocs(l, rs, size)
    ensures |es| == |rs| && EditsFit(es, 0, size)
    ensures forall k :: 0 <= k < |es| ==> es[k] == FinalEdit(l, rs[k])
  {
    seq(|rs|, k requires 0 <= k < |rs| => FinalEdit(l, rs[k]))
  }

  function FinalContents(l: Link, c: bytes, rs: seq<Reloc>): (r: bytes)
    requires ValidRelocs(l, rs, |c|)
    ensures |r| == |c|
  {
    var es := FinalEdits(l, rs, |c|);
    ApplyAll(l.big, c, es, |es|)
  }

  // ---------------------------------------------------------------------------------------
  // What the values mean
  // ---------------------------------------------------------------------------------------

  /** The place that a relocation is in, before and after the link. */
  function PlaceIn(l: Link, r: Reloc): int {
    Own(l).vma + r.addr
  }

  function PlaceOut(l: Link, r: Reloc): int {
    Own(l).outVma + Own(l).outOff + r.addr
  }

  /** A value that stands for an address in a section, or for its distance from the place that holds
      it, stands for the new address or the new distance after either kind of link. */
  lemma SectionMeaning(l: Link, r: Reloc, t: int)
    requires r.target.Section? && !r.howto.pcrelOffset
    ensures var added := FinalValue(l, r) - (if l.ext then r.addend else 0);
            var t' := t + MovedBy(At(l.places, r.target.kind));
            if r.howto.pcrel then
              && t - PlaceIn(l, r) + added == t' - PlaceOut(l, r)
              && t - PlaceIn(l, r) + PartialShift(l, r) == t' - PlaceOut(l, r)
            else t + added == t' && t + PartialShift(l, r) == t'
  {
  }

  /** A value that stands for an offset from a symbol, less the place in the section if it is to be
      relative to the place, stands for the address or the distance after a final link. */
  lemma SymbolMeaning(l: Link, r: Reloc, offset: int)
    requires r.target.Symbol? && r.target.index < |l.hashes| && !r.howto.pcrelOffset
    ensures var added := FinalValue(l, r) - (if l.ext then r.addend else 0);
            var symbol := Address(l, l.hashes[r.target.index]);
            if r.howto.pcrel then offset - r.addr + added == symbol + offset - PlaceOut(l, r)
            else offset + added == symbol + offset
  {
  }

  // ---------------------------------------------------------------------------------------
  // The linker's loop
  // ---------------------------------------------------------------------------------------

  /** One relocation of a relocatable link: the record is made to name a section or the symbol's
      new record, and what is known of the value goes into the contents or the addend. */
  method RelocateRecord(l: Link, contents: array<byte>, rel: Reloc) returns (out: Reloc)
    requires ValidReloc(l, rel, contents.Length)
    modifies contents
    ensures out == PartialReloc(l, rel)
    ensures contents[..] == if l.ext then old(contents[..]) else Apply(l.big, old(contents[..]), PartialEdit(l, rel))
  {
    hide Rem, Signed32, Apply;
    var relocation := 0;
    var target := rel.target;
    match rel.target {
      case Symbol(i) =>
        match l.hashes[i] {
          case Defined(kind, value, off) =>
            target := Section(kind);
            relocation := value + At(l.places, kind).outVma + off;
          case Other(index) =>
            target := Symbol(index);
        }
      case Section(kind) =>
        relocation := MovedBy(At(l.places, kind));
    }
    var own := Own(l);
    if rel.howto.pcrel && !(l.ext && rel.howto.pcrelOffset) {
      relocation := relocation - MovedBy(own);
    }
    assert relocation == PartialShift(l, rel);
    var addend := rel.addend;
    if Rem(relocation, TWO64) != 0 {
      if l.ext {
        addend := Signed32(rel.addend + relocation);
      } else {
        ApplyInPlace(l.big, contents, PartialEdit(l, rel));
      }
    } else if l.ext {
      AddendKept(rel.addend, relocation);
    } else {
      AddNothing(l.big, contents[..], PartialEdit(l, rel));
    }
    out := Reloc(Rem(rel.addr + own.outOff, TWO32), rel.howto, target, addend);
  }

  lemma AddendKept(addend: int, shift: int)
    requires Rem(shift, TWO64) == 0
    ensures Signed32(addend + shift) == Signed32(addend)
  {
    hide Rem, Quot;
    DivRem(shift, TWO64);
    var q := Quot(shift, TWO64);
    assert q * TWO64 == (q * TWO32) * TWO32;
    AddMultiple(addend, q * TWO32, TWO32);
  }

  /** One relocation of a final link. */
  method RelocateContents(l: Link, contents: array<byte>, rel: Reloc)
    requires ValidReloc(l, rel, contents.Length)
    modifies contents
    ensures contents[..] == Apply(l.big, old(contents[..]), FinalEdit(l, rel))
  {
    hide Apply, Signed32;
    var relocation;
    match rel.target {
      case Symbol(i) => relocation := Address(l, l.hashes[i]);
      case Section(kind) =>
        relocation := MovedBy(At(l.places, kind));
        if rel.howto.pcrel { relocation := relocation + Own(l).vma; }
    }
    if l.ext { relocation := relocation + rel.addend; }
    if rel.howto.pcrel {
      relocation := relocation - (Own(l).outVma + Own(l).outOff);
      if rel.howto.pcrelOffset { relocation := relocation - rel.addr; }
    }
    ApplyInPlace(l.big, contents, Edit(rel.addr, rel.howto.size, rel.howto.bits, rel.howto.shift, !l.ext, relocation));
  }

  /** `aout_link_input_section_std` and `aout_link_input_section_ext`: the contents and, for a
      relocatable link, the relocation records are changed in place. */
  method LinkInputSection(l: Link, relocatable: bool, contents: array<byte>, relocs: array<Reloc>)
    requires ValidRelocs(l, relocs[..], contents.Length)
    modifies contents, relocs
    ensures relocatable ==> contents[..] == PartialContents(l, old(contents[..]), old(relocs[..]))
    ensures relocatable ==> relocs[..] == PartialRelocs(l, old(relocs[..]))
    ensures !relocatable ==> contents[..] == FinalContents(l, old(contents[..]), old(relocs[..]))
    ensures !relocatable ==> relocs[..] == old(relocs[..])
  {
    if relocatable {
      LinkRelocatable(l, contents, relocs);
    } else {
      LinkFinal(l, contents, relocs);
    }
  }

  method LinkRelocatable(l: Link, contents: array<byte>, relocs: array<Reloc>)
    requires ValidRelocs(l, relocs[..], contents.Length)
    modifies contents, relocs
    ensures contents[..] == PartialContents(l, old(contents[..]), old(relocs[..]))
    ensures relocs[..] == PartialRelocs(l, old(relocs[..]))
  {
    hide ApplyAll, Apply, PartialShift, PartialReloc, PartialEdit, ValidEdit, Signed32;
    ghost var rs, c := relocs[..], contents[..];
    ghost var es := PartialEdits(l, rs, |c|);
    NoEdits(l.big, c, es);
    var i := 0;
    while i < relocs.Length
      invariant 0 <= i <= relocs.Length
      invariant relocs[i..] == rs[i..]
      invariant forall k :: 0 <= k < i ==> relocs[k] == PartialReloc(l, rs[k])
      invariant contents[..] == ApplyAll(l.big, c, es, if l.ext then 0 else i)
    {
      var rel := relocs[i];
      assert rel == relocs[i..][0] == rs[i];
      if !l.ext { ApplyNext(l.big, c, es, i); }
      relocs[i] := RelocateRecord(l, contents, rel);
      i := i + 1;
      assert relocs[i..] == rs[i..] by { assert rs[i - 1..][1..] == rs[i..]; }
    }
  }

  lemma NoEdits(big: bool, c: bytes, es: seq<Edit>)
    requires EditsFit(es, 0, |c|)
    ensures ApplyAll(big, c, es, 0) == c
  {
  }

  method LinkFinal(l: Link, contents: array<byte>, relocs: array<Reloc>)
    requires ValidRelocs(l, relocs[..], contents.Length)
    modifies contents
    ensures contents[..] == FinalContents(l, old(contents[..]), relocs[..])
  {
    hide ApplyAll, Apply, FinalValue, FinalEdit, ValidReloc, ValidEdit;
    ghost var rs, c := relocs[..], contents[..];
    ghost var es := FinalEdits(l, rs, |c|);
    NoEdits(l.big, c, es);
    var i := 0;
    while i < relocs.Length
      invariant 0 <= i <= relocs.Length
      invariant contents[..] == ApplyAll(l.big, c, es, i)
    {
      var rel := relocs[i];
      assert rel == rs[i];
      ApplyNext(l.big, c, es, i);
      RelocateContents(l, contents, rel);
      i := i + 1;
    }
  }

  // ---------------------------------------------------------------------------------------
  // A relocatable link followed by a final link, against a final link alone
  // ---------------------------------------------------------------------------------------

  /** `l2` links the output of `l1`, and `l0` links the input of `l1` to the same end: sections of
      one kind go to sections of that kind, a section inside another one keeps its offset, and
      symbols get the same addresses. */
  ghost predicate Composes(l1: Link, l2: Link, l0: Link) {
    && l1.ext == l2.ext == l0.ext && l1.big == l2.big == l0.big && l1.input == l2.input == l0.input
    && |l0.hashes| == |l1.hashes|
    && (forall k: Kind :: PlacesCompose(At(l1.places, k), At(l2.places, k), At(l0.places, k)))
    && (forall i :: 0 <= i < |l1.hashes| ==> HashesCompose(l1, l2, l0, i))
  }

  predicate PlacesCompose(p1: Place, p2: Place, p0: Place) {
    p2.vma == p1.outVma && p0 == Place(p1.vma, p2.outVma, p2.outOff + p1.outOff)
  }

  predicate HashesCompose(l1: Link, l2: Link, l0: Link, i: nat)
    requires i < |l1.hashes| == |l0.hashes|
  {
    match l1.hashes[i]
    case Defined(kind, value, off) => l0.hashes[i] == Defined(kind, value, off + At(l2.places, kind).outOff)
    case Other(j) => j < |l2.hashes| && Address(l2, l2.hashes[j]) == Address(l0, l0.hashes[i])
  }

  /** By how much the value after both links differs from the value of the direct link.  It depends
      on the input section only: its own address, and where the relocatable link put it. */
  function Drift(l: Link, r: Reloc): int
    requires r.target.Symbol? ==> r.target.index < |l.hashes|
  {
    var p := Own(l);
    if !r.howto.pcrel then 0
    else if r.target.Section? then
      if !r.howto.pcrelOffset then 0 else if l.ext then p.outVma - p.vma else 0 - p.outOff
    else if l.hashes[r.target.index].Defined? then
      if !r.howto.pcrelOffset then p.vma else if l.ext then p.outVma else p.vma - p.outOff
    else
      if !r.howto.pcrelOffset then p.vma - p.outVma else if l.ext then 0 else 0 - MovedBy(p)
  }

  /** The drift gets into the field of a relocation: it changes the bits above the shift, where a carry
      out of the low bits of the value of the direct link counts too. */
  predicate DriftReaches(l1: Link, l0: Link, r: Reloc)
    requires r.target.Symbol? ==> r.target.index < |l1.hashes| && r.target.index < |l0.hashes|
  {
    Reaches(FinalValue(l0, r), Drift(l1, r), r.howto.shift, r.howto.bits)
  }

  /** A drift that is a multiple of two to the shift, as any is if there is no shift. */
  predicate WholeDrift(l: Link, r: Reloc)
    requires r.target.Symbol? ==> r.target.index < |l.hashes|
  {
    Rem(Drift(l, r), TwoTo(r.howto.shift)) == 0
  }

  /** Such a drift reaches the field whatever the value is, or never. */
  lemma WholeReaches(l1: Link, l0: Link, r: Reloc)
    requires r.target.Symbol? ==> r.target.index < |l1.hashes| && r.target.index < |l0.hashes|
    requires WholeDrift(l1, r)
    ensures DriftReaches(l1, l0, r) <==> Rem(Drift(l1, r), TwoTo(r.howto.shift + r.howto.bits)) != 0
  {
    hide Reaches, FinalValue, Drift, Rem, TwoTo;
    MultipleReaches(FinalValue(l0, r), Drift(l1, r), r.howto.shift, r.howto.bits);
  }

  /** The links agree about the input section. */
  ghost predicate SameInput(l1: Link, l2: Link, l0: Link) {
    && l1.ext == l2.ext == l0.ext && l1.input == l2.input == l0.input && |l0.hashes| == |l1.hashes|
    && PlacesCompose(Own(l1), Own(l2), Own(l0))
  }

  /** Both links together give the value of the direct link, up to the drift. */
  ghost predicate ValueComposes(l1: Link, l2: Link, l0: Link, r: Reloc, s: Reloc)
    requires r.target.Symbol? ==> r.target.index < |l1.hashes| == |l0.hashes|
    requires s.target.Symbol? ==> s.target.index < |l2.hashes|
  {
    PartialShift(l1, r) + FinalValue(l2, s.(addend := r.addend)) == FinalValue(l0, r) + Drift(l1, r)
  }

  lemma SectionComposes(l1: Link, l2: Link, l0: Link, r: Reloc, s: Reloc)
    requires SameInput(l1, l2, l0) && r.target.Section? && s.target == r.target && s.howto == r.howto
    requires PlacesCompose(At(l1.places, r.target.kind), At(l2.places, r.target.kind), At(l0.places, r.target.kind))
    requires s.addr == r.addr + Own(l1).outOff
    ensures ValueComposes(l1, l2, l0, r, s)
  {
    hide At;
  }

  lemma DefinedComposes(l1: Link, l2: Link, l0: Link, r: Reloc, s: Reloc)
    requires SameInput(l1, l2, l0) && r.target.Symbol? && r.target.index < |l1.hashes| && s.howto == r.howto
    requires l1.hashes[r.target.index].Defined? && s.target == Section(l1.hashes[r.target.index].kind)
    requires HashesCompose(l1, l2, l0, r.target.index)
    requires var k := l1.hashes[r.target.index].kind;
             PlacesCompose(At(l1.places, k), At(l2.places, k), At(l0.places, k))
    requires s.addr == r.addr + Own(l1).outOff
    ensures ValueComposes(l1, l2, l0, r, s)
  {
    hide At;
  }

  lemma OtherComposes(l1: Link, l2: Link, l0: Link, r: Reloc, s: Reloc)
    requires SameInput(l1, l2, l0) && r.target.Symbol? && r.target.index < |l1.hashes| && s.howto == r.howto
    requires l1.hashes[r.target.index].Other? && s.target == Symbol(l1.hashes[r.target.index].index)
    requires HashesCompose(l1, l2, l0, r.target.index)
    requires s.addr == r.addr + Own(l1).outOff
    ensures s.target.index < |l2.hashes| && ValueComposes(l1, l2, l0, r, s)
  {
    hide At;
  }

  lemma ValuesCompose(l1: Link, l2: Link, l0: Link, r: Reloc)
    requires Composes(l1, l2, l0) && (r.target.Symbol? ==> r.target.index < |l1.hashes|)
    requires r.addr + Own(l1).outOff < TWO32
    ensures var s := PartialReloc(l1, r);
            && (s.target.Symbol? ==> s.target.index < |l2.hashes|) && ValueComposes(l1, l2, l0, r, s)
            && s.addr == r.addr + Own(l1).outOff
  {
    hide Rem, Signed32, ValueComposes, PlacesCompose, HashesCompose, PartialShift, At;
    var s := PartialReloc(l1, r);
    ModUnique(r.addr + Own(l1).outOff, TWO32, 0, r.addr + Own(l1).outOff);
    assert PlacesCompose(At(l1.places, l1.input), At(l2.places, l1.input), At(l0.places, l1.input));
    match r.target
    case Section(k) =>
      assert PlacesCompose(At(l1.places, k), At(l2.places, k), At(l0.places, k));
      SectionComposes(l1, l2, l0, r, s);
    case Symbol(i) =>
      assert HashesCompose(l1, l2, l0, i);
      if l1.hashes[i].Defined? {
        var k := l1.hashes[i].kind;
        assert PlacesCompose(At(l1.places, k), At(l2.places, k), At(l0.places, k));
        DefinedComposes(l1, l2, l0, r, s);
      } else {
        OtherComposes(l1, l2, l0, r, s);
      }
  }

  /** The output section of the relocatable link around the input section: other bytes and other
      relocations before and behind it. */
  datatype Around = Around(front: bytes, back: bytes, before: seq<Reloc>, after: seq<Reloc>)

  function Joined(l: Link, c: bytes, rs: seq<Reloc>, a: Around): (r: bytes)
    requires ValidRelocs(l, rs, |c|)
    ensures |r| == |a.front| + |c| + |a.back|
    ensures r[|a.front|..|a.front| + |c|] == PartialContents(l, c, rs)
  {
    a.front + PartialContents(l, c, rs) + a.back
  }

  function JoinedRelocs(l: Link, c: bytes, rs: seq<Reloc>, a: Around): seq<Reloc>
    requires ValidRelocs(l, rs, |c|)
  {
    a.before + PartialRelocs(l, rs) + a.after
  }

  predicate FieldsDisjoint(rs: seq<Reloc>) {
    forall j, k :: 0 <= j < k < |rs| ==>
      rs[j].addr + rs[j].howto.size <= rs[k].addr || rs[k].addr + rs[k].howto.size <= rs[j].addr
  }

  /** The relocations of the other inputs stay in their own parts. */
  ghost predicate ValidAround(l1: Link, l2: Link, c: bytes, rs: seq<Reloc>, a: Around)
    requires ValidRelocs(l1, rs, |c|)
  {
    var total := |a.front| + |c| + |a.back|;
    && |a.front| == Own(l1).outOff && total < TWO32
    && ValidRelocs(l2, a.before, |a.front|) && ValidRelocs(l2, a.after, total)
    && (forall k :: 0 <= k < |a.after| ==> a.after[k].addr >= |a.front| + |c|)
    && FieldsDisjoint(JoinedRelocs(l1, c, rs, a))
  }

  lemma Signed32Twice(x: int)
    ensures Signed32(Signed32(x)) == Signed32(x)
  {
    var y := Signed32(x);
    if y >= 0 { ModUnique(y, TWO32, 0, y); } else { ModUnique(y, TWO32, -1, y + TWO32); }
  }

  /** The records that the relocatable link leaves are good for the final link. */
  lemma OwnValid(l1: Link, l2: Link, l0: Link, c: bytes, rs: seq<Reloc>, a: Around, k: nat)
    requires Composes(l1, l2, l0) && ValidRelocs(l1, rs, |c|) && ValidAround(l1, l2, c, rs, a) && k < |rs|
    ensures ValidReloc(l2, PartialReloc(l1, rs[k]), |Joined(l1, c, rs, a)|) && ValidReloc(l0, rs[k], |c|)
    ensures PartialReloc(l1, rs[k]).addr == rs[k].addr + |a.front|
  {
    hide Signed32, PartialShift, ValueComposes, FieldsDisjoint, PartialContents, Rem;
    assert ValidReloc(l1, rs[k], |c|);
    ValuesCompose(l1, l2, l0, rs[k]);
    Signed32Twice(rs[k].addend + PartialShift(l1, rs[k]));
  }

  lemma JoinedValid(l1: Link, l2: Link, l0: Link, c: bytes, rs: seq<Reloc>, a: Around)
    requires Composes(l1, l2, l0) && ValidRelocs(l1, rs, |c|) && ValidAround(l1, l2, c, rs, a)
    ensures ValidRelocs(l2, JoinedRelocs(l1, c, rs, a), |Joined(l1, c, rs, a)|) && ValidRelocs(l0, rs, |c|)
    ensures ValidRelocs(l2, PartialRelocs(l1, rs), |Joined(l1, c, rs, a)|)
    ensures ValidRelocs(l2, a.before, |Joined(l1, c, rs, a)|)
  {
    hide PartialReloc, FieldsDisjoint, PartialContents, Composes, Signed32, ValidEdit;
    var total := |Joined(l1, c, rs, a)|;
    forall k | 0 <= k < |rs|
      ensures ValidReloc(l2, PartialReloc(l1, rs[k]), total) && ValidReloc(l0, rs[k], |c|)
    {
      OwnValid(l1, l2, l0, c, rs, a, k);
    }
    forall k | 0 <= k < |a.before|
      ensures ValidReloc(l2, a.before[k], total)
    {
      MoreRoom(l2, a.before[k], |a.front|, total);
    }
  }

  lemma MoreRoom(l: Link, r: Reloc, n: nat, m: nat)
    requires ValidReloc(l, r, n) && n <= m
    ensures ValidReloc(l, r, m)
  {
  }

  /** What the field of relocation `k` holds when the final link comes to it. */
  lemma MiddleField(l1: Link, c: bytes, rs: seq<Reloc>, a: Around, k: nat, own: Edit)
    requires ValidRelocs(l1, rs, |c|) && FieldsDisjoint(rs) && k < |rs|
    requires own.at == rs[k].addr + |a.front| && own.size == rs[k].howto.size
    ensures own.at + own.size <= |Joined(l1, c, rs, a)|
    ensures var e := PartialEdit(l1, rs[k]);
            FieldOf(l1.big, Joined(l1, c, rs, a), own)
            == if l1.ext then FieldOf(l1.big, c, e) else Stored(e, FieldOf(l1.big, c, e))
  {
    hide ApplyAll, Stored, Get, PartialShift, Signed32;
    assert ValidReloc(l1, rs[k], |c|);
    var e, mid := PartialEdit(l1, rs[k]), PartialContents(l1, c, rs);
    SliceOfSlice(Joined(l1, c, rs, a), mid, |a.front|, e.at, e.size);
    var es := PartialEdits(l1, rs, |c|);
    if l1.ext {
      NoEdits(l1.big, c, es);
    } else {
      EditsDisjoint(rs, es);
      FieldAfter(l1.big, c, es, |es|, k);
    }
  }

  lemma SliceOfSlice(all: bytes, mid: bytes, off: nat, at: nat, size: nat)
    requires off + |mid| <= |all| && all[off..off + |mid|] == mid && at + size <= |mid|
    ensures all[at + off..at + off + size] == mid[at..at + size]
  {
    forall i | at <= i < at + size
      ensures all[off + i] == mid[i]
    {
      assert all[off..off + |mid|][i] == mid[i];
    }
  }

  lemma EditsDisjoint(rs: seq<Reloc>, es: seq<Edit>)
    requires FieldsDisjoint(rs) && |es| == |rs|
    requires forall k :: 0 <= k < |rs| ==> es[k].at == rs[k].addr && es[k].size == rs[k].howto.size
    ensures Disjoint(es)
  {
  }

  /** Bytes that belong to no field come through the relocatable link unchanged. */
  lemma MiddleSame(l1: Link, c: bytes, rs: seq<Reloc>, es: seq<Edit>)
    requires ValidRelocs(l1, rs, |c|) && |es| == |rs|
    requires forall k :: 0 <= k < |rs| ==> es[k].at == rs[k].addr && es[k].size == rs[k].howto.size
    ensures SameAround(es, c, PartialContents(l1, c, rs))
  {
    hide ApplyAll, ValidReloc;
    var edits := PartialEdits(l1, rs, |c|);
    forall i | 0 <= i < |c| && Untouched(es, i)
      ensures PartialContents(l1, c, rs)[i] == c[i]
    {
      assert Untouched(edits, i) by {
        forall k | 0 <= k < |edits| ensures i < edits[k].at || edits[k].at + edits[k].size <= i {
          assert es[k].at == rs[k].addr;
        }
      }
      AloneOutside(l1.big, c, edits, i);
    }
  }

  /** One field: the two links store what the direct link stores exactly when the drift does not reach
      the field. */
  lemma FieldExact(l1: Link, l2: Link, l0: Link, c: bytes, rs: seq<Reloc>, a: Around, k: nat)
    requires Composes(l1, l2, l0) && ValidRelocs(l1, rs, |c|) && ValidAround(l1, l2, c, rs, a)
    requires FieldsDisjoint(rs) && k < |rs|
    ensures FieldAgrees(l1, l2, l0, c, rs, a, k) <==> !DriftReaches(l1, l0, rs[k])
  {
    hide Composes, ValidRelocs, ValidAround, FieldsDisjoint, FieldAgrees, DriftReaches;
    assert ValidReloc(l1, rs[k], |c|) by { Each(l1, rs, |c|, k); }
    if l1.ext {
      FieldExactExt(l1, l2, l0, c, rs, a, k);
    } else {
      FieldExactStd(l1, l2, l0, c, rs, a, k);
    }
  }

  lemma Each(l: Link, rs: seq<Reloc>, size: nat, k: nat)
    requires ValidRelocs(l, rs, size) && k < |rs|
    ensures ValidReloc(l, rs[k], size)
  {
    hide ValidReloc;
  }

  lemma FieldExactStd(l1: Link, l2: Link, l0: Link, c: bytes, rs: seq<Reloc>, a: Around, k: nat)
    requires Composes(l1, l2, l0) && ValidRelocs(l1, rs, |c|) && ValidAround(l1, l2, c, rs, a)
    requires FieldsDisjoint(rs) && k < |rs| && !l1.ext
    ensures FieldAgrees(l1, l2, l0, c, rs, a, k) <==> !DriftReaches(l1, l0, rs[k])
  {
    hide ValidRelocs, ValidAround, FieldsDisjoint, Drift, Rem, TwoTo, Stored, FieldOf, PartialShift, Joined;
    hide PlacesCompose, HashesCompose, Signed32, FinalValue;
    Each(l1, rs, |c|, k);
    var r := rs[k];
    var s := PartialReloc(l1, r);
    AddressFits(l1, l2, c, rs, a, k);
    ValuesCompose(l1, l2, l0, r);
    OwnValid(l1, l2, l0, c, rs, a, k);
    var e1, e2, e := PartialEdit(l1, r), FinalEdit(l2, s), FinalEdit(l0, r);
    AddendUnused(l2, s, r.addend);
    MiddleField(l1, c, rs, a, k, e2);
    SameFieldOf(l1.big, c, e1, e);
    InPlaceTwice(e1, e2, e, FieldOf(l1.big, c, e));
    Unshifted(Drift(l1, r));
    WholeReaches(l1, l0, r);
  }

  lemma Unshifted(d: int)
    ensures Rem(d, TwoTo(0)) == 0
  {
  }

  lemma AddressFits(l1: Link, l2: Link, c: bytes, rs: seq<Reloc>, a: Around, k: nat)
    requires ValidRelocs(l1, rs, |c|) && ValidAround(l1, l2, c, rs, a) && k < |rs|
    ensures |a.front| == Own(l1).outOff && rs[k].addr + |a.front| < TWO32
  {
    hide FieldsDisjoint, JoinedRelocs;
    assert ValidReloc(l1, rs[k], |c|);
  }

  lemma SameFieldOf(big: bool, c: bytes, e: Edit, f: Edit)
    requires e.at == f.at && e.size == f.size && e.at + e.size <= |c|
    ensures FieldOf(big, c, e) == FieldOf(big, c, f)
  {
  }

  lemma AddendUnused(l: Link, s: Reloc, addend: int)
    requires !l.ext && (s.target.Symbol? ==> s.target.index < |l.hashes|)
    ensures FinalValue(l, s) == FinalValue(l, s.(addend := addend))
  {
  }

  lemma AddendAdded(l: Link, s: Reloc, addend: int)
    requires l.ext && (s.target.Symbol? ==> s.target.index < |l.hashes|)
    ensures FinalValue(l, s) == FinalValue(l, s.(addend := addend)) + s.addend - addend
  {
  }

  lemma FieldExactExt(l1: Link, l2: Link, l0: Link, c: bytes, rs: seq<Reloc>, a: Around, k: nat)
    requires Composes(l1, l2, l0) && ValidRelocs(l1, rs, |c|) && ValidAround(l1, l2, c, rs, a)
    requires FieldsDisjoint(rs) && k < |rs| && l1.ext
    ensures FieldAgrees(l1, l2, l0, c, rs, a, k) <==> !DriftReaches(l1, l0, rs[k])
  {
    hide ValidRelocs, ValidAround, FieldsDisjoint, Drift, Rem, TwoTo, Stored, FieldOf, PartialShift, Joined;
    hide PlacesCompose, HashesCompose, Signed32, FinalValue;
    Each(l1, rs, |c|, k);
    var r := rs[k];
    var s := PartialReloc(l1, r);
    AddressFits(l1, l2, c, rs, a, k);
    ValuesCompose(l1, l2, l0, r);
    OwnValid(l1, l2, l0, c, rs, a, k);
    var e1, e2, e := PartialEdit(l1, r), FinalEdit(l2, s), FinalEdit(l0, r);
    AddendAdded(l2, s, r.addend);
    MiddleField(l1, c, rs, a, k, e2);
    SameFieldOf(l1.big, c, e1, e);
    ReplacedSame(e2, e, FieldOf(l1.big, c, e));
    var x := r.addend + PartialShift(l1, r);
    Signed32Same(x);
    assert e2.value - e.value == Drift(l1, r) + (Signed32(x) - x);
    WordsNeverReach(e.value, Drift(l1, r), Signed32(x) - x, r.howto.shift, r.howto.bits);
  }

  ghost predicate FieldAgrees(l1: Link, l2: Link, l0: Link, c: bytes, rs: seq<Reloc>, a: Around, k: nat)
    requires Composes(l1, l2, l0) && ValidRelocs(l1, rs, |c|) && ValidAround(l1, l2, c, rs, a) && k < |rs|
  {
    OwnValid(l1, l2, l0, c, rs, a, k);
    var own, e := FinalEdit(l2, PartialReloc(l1, rs[k])), FinalEdit(l0, rs[k]);
    Stored(own, FieldOf(l1.big, Joined(l1, c, rs, a), own)) == Stored(e, FieldOf(l1.big, c, e))
  }

  lemma OwnDisjoint(l1: Link, l2: Link, l0: Link, c: bytes, rs: seq<Reloc>, a: Around)
    requires Composes(l1, l2, l0) && ValidRelocs(l1, rs, |c|) && ValidAround(l1, l2, c, rs, a)
    ensures FieldsDisjoint(rs)
  {
    hide Composes, PartialReloc, Signed32, PartialContents;
    var joined, n := JoinedRelocs(l1, c, rs, a), |a.before|;
    forall j, k | 0 <= j < k < |rs|
      ensures rs[j].addr + rs[j].howto.size <= rs[k].addr || rs[k].addr + rs[k].howto.size <= rs[j].addr
    {
      assert joined[n + j] == PartialReloc(l1, rs[j]) && joined[n + k] == PartialReloc(l1, rs[k]);
      OwnValid(l1, l2, l0, c, rs, a, j);
      OwnValid(l1, l2, l0, c, rs, a, k);
      SameHowto(l1, rs[j]);
      SameHowto(l1, rs[k]);
    }
  }

  /** The section as a whole agrees exactly when each field does. */
  lemma SectionExact(l1: Link, l2: Link, l0: Link, c: bytes, rs: seq<Reloc>, a: Around)
    requires Composes(l1, l2, l0) && ValidRelocs(l1, rs, |c|) && ValidAround(l1, l2, c, rs, a) && FieldsDisjoint(rs)
    requires ValidRelocs(l2, JoinedRelocs(l1, c, rs, a), |Joined(l1, c, rs, a)|) && ValidRelocs(l0, rs, |c|)
    ensures FinalContents(l2, Joined(l1, c, rs, a), JoinedRelocs(l1, c, rs, a))[|a.front|..|a.front| + |c|]
            == FinalContents(l0, c, rs)
            <==> forall k :: 0 <= k < |rs| ==> FieldAgrees(l1, l2, l0, c, rs, a, k)
  {
    hide Signed32, PartialContents, FieldsDisjoint, Stored, FieldOf, PartialReloc, ApplyAll, SameAround, PlacesCompose;
    hide HashesCompose, FinalValue, ValidEdit;
    var all := Joined(l1, c, rs, a);
    JoinedValid(l1, l2, l0, c, rs, a);
    var front, own := FinalEdits(l2, a.before, |all|), FinalEdits(l2, PartialRelocs(l1, rs), |all|);
    var back, es := FinalEdits(l2, a.after, |all|), FinalEdits(l0, rs, |c|);
    var together := FinalEdits(l2, JoinedRelocs(l1, c, rs, a), |all|);
    assert together == front + own + back;
    EditsInPlace(l1, l2, l0, c, rs, a, front, own, back, es);
    EditsDisjoint(rs, es);
    EditsDisjoint(JoinedRelocs(l1, c, rs, a), together);
    MiddleSame(l1, c, rs, es);
    StretchExact(l1.big, c, es, all, |a.front|, front, own, back);
    forall k | 0 <= k < |rs|
      ensures FieldAgrees(l1, l2, l0, c, rs, a, k)
              <==> Stored(own[k], FieldOf(l1.big, all, own[k])) == Stored(es[k], FieldOf(l1.big, c, es[k]))
    {
    }
  }

  lemma EditsInPlace(l1: Link, l2: Link, l0: Link, c: bytes, rs: seq<Reloc>, a: Around,
                     front: seq<Edit>, own: seq<Edit>, back: seq<Edit>, es: seq<Edit>)
    requires Composes(l1, l2, l0) && ValidRelocs(l1, rs, |c|) && ValidAround(l1, l2, c, rs, a)
    requires var n := |Joined(l1, c, rs, a)|;
             && ValidRelocs(l2, a.before, n) && ValidRelocs(l2, PartialRelocs(l1, rs), n) && ValidRelocs(l2, a.after, n)
             && front == FinalEdits(l2, a.before, n) && own == FinalEdits(l2, PartialRelocs(l1, rs), n)
             && back == FinalEdits(l2, a.after, n) && ValidRelocs(l0, rs, |c|) && es == FinalEdits(l0, rs, |c|)
    ensures EditsFit(front, 0, |a.front|) && EditsFit(back, |a.front| + |c|, |Joined(l1, c, rs, a)|)
    ensures Moved(es, |a.front|, own)
  {
    hide Composes, PartialContents, FieldsDisjoint, PartialReloc, FinalValue, Signed32;
    forall k | 0 <= k < |front|
      ensures ValidEdit(front[k]) && front[k].at + front[k].size <= |a.front|
    {
      assert ValidReloc(l2, a.before[k], |a.front|);
    }
    forall k | 0 <= k < |es|
      ensures own[k].at == es[k].at + |a.front| && own[k].size == es[k].size
    {
      OwnValid(l1, l2, l0, c, rs, a, k);
      SameHowto(l1, rs[k]);
    }
  }

  lemma SameHowto(l: Link, r: Reloc)
    requires r.target.Symbol? ==> r.target.index < |l.hashes|
    ensures PartialReloc(l, r).howto == r.howto
  {
  }

  /** Linked with the rest of its output section, the input section ends up with the bytes that the
      final link alone gives it. */
  ghost predicate ComesThrough(l1: Link, l2: Link, l0: Link, c: bytes, rs: seq<Reloc>, a: Around)
    requires Composes(l1, l2, l0) && ValidRelocs(l1, rs, |c|) && ValidAround(l1, l2, c, rs, a)
  {
    JoinedValid(l1, l2, l0, c, rs, a);
    FinalContents(l2, Joined(l1, c, rs, a), JoinedRelocs(l1, c, rs, a))[|a.front|..|a.front| + |c|]
    == FinalContents(l0, c, rs)
  }

  lemma SameHashes(l1: Link, l2: Link, l0: Link)
    requires Composes(l1, l2, l0)
    ensures |l0.hashes| == |l1.hashes|
  {
    hide PlacesCompose, HashesCompose;
  }

  /** A relocatable link and then a final link leave the same bytes at the same place of the output
      as the final link alone if and only if the drift of no relocation reaches its field. */
  lemma TwoLinks(l1: Link, l2: Link, l0: Link, c: bytes, rs: seq<Reloc>, a: Around)
    requires Composes(l1, l2, l0) && ValidRelocs(l1, rs, |c|) && ValidAround(l1, l2, c, rs, a)
    ensures ComesThrough(l1, l2, l0, c, rs, a) <==> forall k :: 0 <= k < |rs| ==> !DriftReaches(l1, l0, rs[k])
  {
    hide Composes, ValidAround, FieldsDisjoint, DriftReaches, PartialReloc, FinalEdit, ApplyAll, Joined, FieldAgrees;
    hide Signed32, JoinedRelocs, FinalContents;
    SameHashes(l1, l2, l0);
    JoinedValid(l1, l2, l0, c, rs, a);
    OwnDisjoint(l1, l2, l0, c, rs, a);
    forall k | 0 <= k < |rs|
      ensures FieldAgrees(l1, l2, l0, c, rs, a, k) <==> !DriftReaches(l1, l0, rs[k])
    {
      FieldExact(l1, l2, l0, c, rs, a, k);
    }
    SectionExact(l1, l2, l0, c, rs, a);
  }

  /** The same in terms of the first link alone, if every drift is a multiple of two to the shift: the
      drift of each relocation has to be a multiple of two to the shift and the bits of its field. */
  lemma TwoLinksWhole(l1: Link, l2: Link, l0: Link, c: bytes, rs: seq<Reloc>, a: Around)
    requires Composes(l1, l2, l0) && ValidRelocs(l1, rs, |c|) && ValidAround(l1, l2, c, rs, a)
    requires forall k :: 0 <= k < |rs| ==> WholeDrift(l1, rs[k])
    ensures ComesThrough(l1, l2, l0, c, rs, a)
            <==> forall k :: 0 <= k < |rs| ==> Rem(Drift(l1, rs[k]), TwoTo(rs[k].howto.shift + rs[k].howto.bits)) == 0
  {
    hide Composes, ValidAround, DriftReaches, Drift, WholeDrift, Rem, TwoTo, ComesThrough;
    SameHashes(l1, l2, l0);
    TwoLinks(l1, l2, l0, c, rs, a);
    forall k | 0 <= k < |rs|
      ensures DriftReaches(l1, l0, rs[k])
              <==> Rem(Drift(l1, rs[k]), TwoTo(rs[k].howto.shift + rs[k].howto.bits)) != 0
    {
      WholeReaches(l1, l0, rs[k]);
    }
  }

  /** The relocations that come through both links unharmed wherever the sections are put: absolute
      ones, and PC-relative ones whose place is counted in the contents, against a section, or
      against a defined symbol from an input section at address zero. */
  predicate Harmless(l: Link, r: Reloc)
    requires r.target.Symbol? ==> r.target.index < |l.hashes|
  {
    r.howto.pcrel ==>
      && !r.howto.pcrelOffset
      && (r.target.Symbol? ==> l.hashes[r.target.index].Defined? && Own(l).vma == 0)
  }

  lemma HarmlessLinks(l1: Link, l2: Link, l0: Link, c: bytes, rs: seq<Reloc>, a: Around)
    requires Composes(l1, l2, l0) && ValidRelocs(l1, rs, |c|) && ValidAround(l1, l2, c, rs, a)
    requires forall k :: 0 <= k < |rs| ==> Harmless(l1, rs[k])
    ensures ComesThrough(l1, l2, l0, c, rs, a)
  {
    hide Composes, ValidAround, Drift, Rem, TwoTo, ComesThrough, Harmless;
    forall k | 0 <= k < |rs|
      ensures WholeDrift(l1, rs[k]) && Rem(Drift(l1, rs[k]), TwoTo(rs[k].howto.shift + rs[k].howto.bits)) == 0
    {
      NoDrift(l1, rs[k]);
      ModUnique(0, TwoTo(rs[k].howto.shift), 0, 0);
      ModUnique(0, TwoTo(rs[k].howto.shift + rs[k].howto.bits), 0, 0);
    }
    TwoLinksWhole(l1, l2, l0, c, rs, a);
  }

  lemma NoDrift(l: Link, r: Reloc)
    requires (r.target.Symbol? ==> r.target.index < |l.hashes|) && Harmless(l, r)
    ensures Drift(l, r) == 0
  {
  }

  /** A PC-relative relocation against a defined symbol, standard or extended, in an input section at an
      address that its field can tell from zero, does not come through. */
  lemma VmaDrifts(l1: Link, l2: Link, l0: Link, c: bytes, rs: seq<Reloc>, a: Around, k: nat)
    requires Composes(l1, l2, l0) && ValidRelocs(l1, rs, |c|) && ValidAround(l1, l2, c, rs, a)
    requires k < |rs| && rs[k].howto.pcrel && !rs[k].howto.pcrelOffset && rs[k].target.Symbol?
    requires l1.hashes[rs[k].target.index].Defined?
    requires l1.ext ==> Rem(Own(l1).vma, TwoTo(rs[k].howto.shift)) == 0
    requires Rem(Own(l1).vma, TwoTo(rs[k].howto.shift + rs[k].howto.bits)) != 0
    ensures !ComesThrough(l1, l2, l0, c, rs, a)
  {
    hide Composes, ValidAround, Rem, TwoTo, ComesThrough, DriftReaches;
    SameHashes(l1, l2, l0);
    TwoLinks(l1, l2, l0, c, rs, a);
    assert Drift(l1, rs[k]) == Own(l1).vma;
    assert WholeDrift(l1, rs[k]) by {
      Each(l1, rs, |c|, k);
      Unshifted(Own(l1).vma);
    }
    WholeReaches(l1, l0, rs[k]);
  }
}
