/** The layout of demand-paged (ZMAGIC) a.out files. */
module AoutLayout {
  import opened Bytes
  import opened AoutField

  // ---------------------------------------------------------------------------------------
  // Machine arithmetic
  // ---------------------------------------------------------------------------------------

  /** `BFD_ALIGN`, for a boundary that is a power of two. */
  function Align(x: nat, bits: nat): (r: nat) {
    var up := Wrap(x + TwoTo(bits) - 1);
    RemAtMost(up, TwoTo(bits));
    if up >= x then up - Rem(up, TwoTo(bits)) else TWO64 - 1
  }

  lemma NoWrap(x: int)
    requires 0 <= x < TWO64
    ensures Wrap(x) == x
  {
    ModUnique(x, TWO64, 0, x);
  }

  /** Away from the end of the address space both give the next multiple. */
  lemma AlignExact(x: nat, bits: nat)
    requires x + TwoTo(bits) - 1 < TWO64
    ensures Align(x, bits) == AlignPower(x, bits)
    ensures x <= Align(x, bits) < x + TwoTo(bits) && Rem(Align(x, bits), TwoTo(bits)) == 0
    ensures Align(x, bits) - x == Rem(0 - x, TwoTo(bits))
    ensures Rem(x, TwoTo(bits)) == 0 ==> Align(x, bits) == x
  {
    hide Rem, Quot, TwoTo;
    var p := TwoTo(bits);
    var up := x + p - 1;
    NoWrap(up);
    DivRem(up, p);
    ModUnique(up - Rem(up, p), p, Quot(up, p), 0);
    SameMod(up - Rem(up, p), x, p);
    NextMultiple(x, up - Rem(up, p), p);
  }

  lemma NextMultiple(x: nat, a: nat, p: nat)
    requires p > 0 && x <= a < x + p && Rem(a, p) == 0
    ensures a - x == Rem(0 - x, p)
    ensures Rem(x, p) == 0 ==> a == x
  {
    hide Rem, Quot;
    DivRem(a, p);
    Distribute(0, Quot(a, p), p);
    ModUnique(0 - x, p, 0 - Quot(a, p), a - x);
    if Rem(x, p) == 0 {
      DivRem(x, p);
      Distribute(Quot(a, p), Quot(x, p), p);
      SmallMultiple(Quot(a, p) - Quot(x, p), p);
    }
  }

  // ---------------------------------------------------------------------------------------
  // The layout
  // ---------------------------------------------------------------------------------------

  /** A target: page and segment sizes as powers of two, where the text section goes in the file, if
      it includes the header, and how the file is mapped. */
  datatype Target = Target(pageBits: nat, segmentBits: nat, block: nat, execBytes: nat, headerInText: bool,
                           defaultText: nat, contiguous: bool, headerCounted: bool)

  /** The sections before the layout; addresses count if they were set by the user. */
  datatype Sections = Sections(hasReloc: bool, userText: bool, textVma: nat, aText: nat,
                               userData: bool, dataVma: nat, dataSize: nat,
                               userBss: bool, bssVma: nat, bssSize: nat, bssAlign: nat)

  predicate ValidTarget(t: Target) {
    t.pageBits <= 63 && t.segmentBits <= 63 && t.block < TWO64 && t.execBytes < TWO64 && t.defaultText < TWO64
  }

  predicate ValidSections(s: Sections) {
    && s.textVma < TWO64 && s.aText < TWO64 && s.dataVma < TWO64 && s.dataSize < TWO64
    && s.bssVma < TWO64 && s.bssSize < TWO64 && s.bssAlign <= 63
  }

  function Page(t: Target): (p: nat)
    ensures p > 0
  {
    TwoTo(t.pageBits)
  }

  function TextFilepos(t: Target): nat {
    if t.headerInText then t.execBytes else t.block
  }

  function TextVma(t: Target, s: Sections): nat {
    if s.userText then s.textVma
    else if s.hasReloc then 0
    else if t.headerInText then Wrap(t.defaultText + t.execBytes)
    else t.defaultText
  }

  /** Padding for a text section at an unusual address. */
  function AddressPad(t: Target, s: Sections): nat {
    if !s.userText then 0
    else Rem(Wrap((if t.headerInText then TextFilepos(t) else 0) - TextVma(t, s)), Page(t))
  }

  /** Where the text section ends, as far as its end has to be on a page boundary. */
  function TextEnd(t: Target, s: Sections): nat {
    if t.headerInText then Wrap(TextFilepos(t) + s.aText) else s.aText
  }

  /** The size of the text section with its padding. */
  function PaddedText(t: Target, s: Sections): nat {
    Wrap(s.aText + AddressPad(t, s) + Align(TextEnd(t, s), t.pageBits) - TextEnd(t, s))
  }

  function DataVma(t: Target, s: Sections): nat {
    if s.userData then s.dataVma else Align(Wrap(TextVma(t, s) + PaddedText(t, s)), t.segmentBits)
  }

  /** The size of the text section when the data section has been placed. */
  function FinalText(t: Target, s: Sections): nat {
    var gap := Wrap(DataVma(t, s) - (TextVma(t, s) + PaddedText(t, s)));
    if t.contiguous && gap > 0 then Wrap(PaddedText(t, s) + gap) else PaddedText(t, s)
  }

  function DataFilepos(t: Target, s: Sections): nat {
    Wrap(TextFilepos(t) + FinalText(t, s))
  }

  function TextSize(t: Target, s: Sections): nat {
    if t.headerInText && t.headerCounted then Wrap(FinalText(t, s) + t.execBytes) else FinalText(t, s)
  }

  function DataSize(t: Target, s: Sections): nat {
    Align(AlignPower(s.dataSize, s.bssAlign), t.pageBits)
  }

  function BssVma(t: Target, s: Sections): nat {
    if s.userBss then s.bssVma else Wrap(DataVma(t, s) + DataSize(t, s))
  }

  /** The bss section starts where the data section as the header has it ends. */
  predicate BssFollows(t: Target, s: Sections) {
    AlignPower(BssVma(t, s), s.bssAlign) == Wrap(DataVma(t, s) + DataSize(t, s))
  }

  function BssSize(t: Target, s: Sections): nat {
    var pad := Wrap(DataSize(t, s) - s.dataSize);
    if !BssFollows(t, s) then s.bssSize
    else if pad > s.bssSize then 0 else s.bssSize - pad
  }

  /** An a.out file being laid out. */
  class AoutFile {
    const target: Target
    const given: Sections
    var textVma: nat
    var textFilepos: nat
    var dataVma: nat
    var dataFilepos: nat
    var bssVma: nat
    var aText: nat
    var aData: nat
    var aBss: nat

    constructor (target: Target, given: Sections)
      ensures this.target == target && this.given == given && Before()
    {
      this.target, this.given := target, given;
      textVma, dataVma, bssVma, aText := given.textVma, given.dataVma, given.bssVma, given.aText;
      textFilepos, dataFilepos, aData, aBss := 0, 0, 0, 0;
    }

    predicate Before()
      reads this
    {
      textVma == given.textVma && dataVma == given.dataVma && bssVma == given.bssVma && aText == given.aText
    }

    /** `adjust_z_magic` */
    method AdjustZMagic()
      requires Before() && ValidTarget(target) && ValidSections(given)
      modifies this
      ensures textFilepos == TextFilepos(target) && textVma == TextVma(target, given)
      ensures dataVma == DataVma(target, given) && dataFilepos == DataFilepos(target, given)
      ensures bssVma == BssVma(target, given)
      ensures aText == TextSize(target, given) && aData == DataSize(target, given) && aBss == BssSize(target, given)
    {
      hide Rem, TwoTo, Align, AlignPower, Wrap;
      PlaceText();
      PlaceData();
      PlaceBss();
    }

    method PlaceText()
      requires Before() && ValidTarget(target) && ValidSections(given)
      modifies this`textFilepos, this`textVma, this`aText
      ensures textFilepos == TextFilepos(target) && textVma == TextVma(target, given)
      ensures aText == PaddedText(target, given)
    {
      hide Rem, TwoTo, Align, AlignPower, Wrap;
      var t := target;
      var textPad;
      textFilepos := if t.headerInText then t.execBytes else t.block;
      if !given.userText {
        textVma := if given.hasReloc then 0
                   else if t.headerInText then Wrap(t.defaultText + t.execBytes) else t.defaultText;
        textPad := 0;
      } else if t.headerInText {
        textPad := Rem(Wrap(textFilepos - textVma), Page(t));
      } else {
        textPad := Rem(Wrap(0 - textVma), Page(t));
      }
      var textEnd := if t.headerInText then Wrap(textFilepos + aText) else aText;
      textPad := textPad + Align(textEnd, t.pageBits) - textEnd;
      aText := Wrap(aText + textPad);
    }

    method PlaceData()
      requires textFilepos == TextFilepos(target) && textVma == TextVma(target, given)
      requires aText == PaddedText(target, given) && dataVma == given.dataVma
      modifies this`dataVma, this`dataFilepos, this`aText
      ensures dataVma == DataVma(target, given) && dataFilepos == DataFilepos(target, given)
      ensures aText == TextSize(target, given)
    {
      hide Rem, TwoTo, Align, AlignPower, Wrap, PaddedText, TextVma, TextFilepos;
      var t := target;
      if !given.userData {
        dataVma := Align(Wrap(textVma + aText), t.segmentBits);
      }
      if t.contiguous {
        var textPad := Wrap(dataVma - (textVma + aText));
        if textPad > 0 { aText := Wrap(aText + textPad); }
      }
      dataFilepos := Wrap(textFilepos + aText);
      if t.headerInText && t.headerCounted { aText := Wrap(aText + t.execBytes); }
    }

    method PlaceBss()
      requires dataVma == DataVma(target, given) && bssVma == given.bssVma
      modifies this`bssVma, this`aData, this`aBss
      ensures bssVma == BssVma(target, given) && aData == DataSize(target, given) && aBss == BssSize(target, given)
    {
      hide Rem, TwoTo, Align, AlignPower, Wrap, DataVma;
      var t := target;
      aData := AlignPower(given.dataSize, given.bssAlign);
      aData := Align(aData, t.pageBits);
      var dataPad := Wrap(aData - given.dataSize);
      if !given.userBss { bssVma := Wrap(dataVma + aData); }
      if AlignPower(bssVma, given.bssAlign) == Wrap(dataVma + aData) {
        aBss := if dataPad > given.bssSize then 0 else given.bssSize - dataPad;
      } else {
        aBss := given.bssSize;
      }
    }
  }

  // ---------------------------------------------------------------------------------------
  // What the layout promises
  // ---------------------------------------------------------------------------------------

  /** The sections stay away from the end of the address space. */
  predicate Roomy(t: Target, s: Sections) {
    && t.pageBits <= 60 && t.segmentBits <= 60 && s.bssAlign <= 60
    && TextFilepos(t) + TextVma(t, s) + s.aText < TwoTo(60) && t.defaultText + t.execBytes < TwoTo(60)
    && s.dataVma + s.dataSize + s.bssVma + s.bssSize < TwoTo(60)
  }

  lemma Bounds(n: nat)
    requires n <= 60
    ensures TwoTo(n) <= TwoTo(60) && 8 * TwoTo(60) < TWO64
  {
    hide TwoTo;
    TwoToSum(n, 60 - n);
    LargeMultiple(TwoTo(60 - n), TwoTo(n));
    TwoToSum(60, 4);
    TwoToWords();
    Sixteen();
  }

  lemma Sixteen()
    ensures TwoTo(4) == 16
  {
  }

  /** The padding is that of two remainders, without any wrapping. */
  lemma PaddedExact(t: Target, s: Sections)
    requires ValidTarget(t) && ValidSections(s) && Roomy(t, s)
    ensures var end := (if t.headerInText then TextFilepos(t) else 0) + s.aText;
            PaddedText(t, s) == s.aText + AddressPad(t, s) + Rem(0 - end, Page(t))
    ensures s.aText <= PaddedText(t, s) < 3 * TwoTo(60)
  {
    hide Rem, TwoTo, Align;
    Bounds(t.pageBits);
    var end := (if t.headerInText then TextFilepos(t) else 0) + s.aText;
    NoWrap(end);
    AlignExact(end, t.pageBits);
    NoWrap(s.aText + AddressPad(t, s) + Rem(0 - end, Page(t)));
  }

  /** The padded text section ends on a page boundary in memory, in both header layouts, exactly when
      its address was set by the user or agrees with its place in the file up to whole pages. */
  lemma TextEndExact(t: Target, s: Sections)
    requires ValidTarget(t) && ValidSections(s) && Roomy(t, s)
    ensures Rem(TextVma(t, s) + PaddedText(t, s), Page(t)) == 0
            <==> s.userText || Rem(TextVma(t, s) - (if t.headerInText then TextFilepos(t) else 0), Page(t)) == 0
  {
    hide Rem, TwoTo, Align, PaddedText, Wrap;
    PaddedExact(t, s);
    var base := if t.headerInText then TextFilepos(t) else 0;
    var p := Page(t);
    if s.userText { PageOfWrap(base - TextVma(t, s), t.pageBits); }
    SumOfRemainders(TextVma(t, s), s.aText, base, AddressPad(t, s), p, s.userText);
  }

  lemma PageOfWrap(x: int, bits: nat)
    requires bits <= 64
    ensures Rem(Wrap(x), TwoTo(bits)) == Rem(x, TwoTo(bits))
  {
    hide Rem, TwoTo;
    var k := WordMultiple(bits);
    ModOfMod(x, TwoTo(bits), k, TWO64);
  }

  lemma SumOfRemainders(vma: int, size: int, base: int, pad: nat, p: nat, user: bool)
    requires p > 0 && pad == if user then Rem(base - vma, p) else 0
    ensures Rem(vma + size + pad + Rem(0 - (base + size), p), p) == 0 <==> user || Rem(vma - base, p) == 0
  {
    hide Rem;
    var end := base + size;
    LowOfLow(0 - end, vma + size + pad, p);
    assert 0 - end + (vma + size + pad) == vma - base + pad;
    if user {
      LowOfLow(base - vma, vma - base, p);
      ModUnique(0, p, 0, 0);
    }
  }

  // ---------------------------------------------------------------------------------------
  // Text and data
  // ---------------------------------------------------------------------------------------

  /** Under contiguous mapping the text section is always made to reach the data section, backwards
      if need be: the test for a gap looks at an unsigned number. */
  lemma ContiguousReaches(t: Target, s: Sections)
    requires ValidTarget(t) && ValidSections(s) && t.contiguous
    ensures FinalText(t, s) == Wrap(DataVma(t, s) - TextVma(t, s))
  {
    hide Rem, TwoTo, Align;
    var text: int, data: int, padded: int := TextVma(t, s), DataVma(t, s), PaddedText(t, s);
    var gap := data - (text + padded);
    LowOfLow(gap, padded, TWO64);
    NoWrap(padded);
    assert gap + padded == data - text;
  }

  /** What the source says it does: the text section is padded up to the data section, and only if
      the data section comes behind it. */
  function PaddedToData(t: Target, s: Sections): int {
    var end := TextVma(t, s) + PaddedText(t, s);
    PaddedText(t, s) + (if DataVma(t, s) > end then DataVma(t, s) - end else 0)
  }

  /** It does so exactly when the data section does come behind it. */
  lemma PadExact(t: Target, s: Sections)
    requires ValidTarget(t) && ValidSections(s) && Roomy(t, s) && t.contiguous
    ensures FinalText(t, s) == PaddedToData(t, s) <==> DataVma(t, s) >= TextVma(t, s) + PaddedText(t, s)
  {
    hide Rem, TwoTo, Align, PaddedText, TextVma, Wrap, FinalText;
    ContiguousReaches(t, s);
    PaddedExact(t, s);
    Bounds(60);
    var text: int, data: int, padded: int := TextVma(t, s), DataVma(t, s), PaddedText(t, s);
    DataBound(t, s);
    if data >= text {
      NoWrap(data - text);
    } else {
      WrapNegative(data - text);
    }
  }

  lemma WrapNegative(x: int)
    requires 0 - TWO64 <= x < 0
    ensures Wrap(x) == x + TWO64
  {
    ModUnique(x, TWO64, -1, x + TWO64);
  }

  lemma DataBound(t: Target, s: Sections)
    requires ValidTarget(t) && ValidSections(s) && Roomy(t, s)
    ensures DataVma(t, s) < 5 * TwoTo(60)
    ensures !s.userData ==> DataVma(t, s) >= TextVma(t, s) + PaddedText(t, s)
  {
    hide Rem, TwoTo, Align, PaddedText, TextVma, Wrap;
    PaddedExact(t, s);
    Bounds(t.segmentBits);
    var end := TextVma(t, s) + PaddedText(t, s);
    NoWrap(end);
    AlignExact(end, t.segmentBits);
  }

  /** A text section that the layout cuts short: data at address 0x1800 under text from 0x1000 to
      0x3000. */
  lemma TextCutShort()
    ensures var t := Target(12, 12, 0x1000, 32, false, 0, true, false);
            var s := Sections(false, true, 0x1000, 0x2000, true, 0x1800, 0, false, 0, 0, 0);
            ValidTarget(t) && ValidSections(s) && Roomy(t, s) && FinalText(t, s) == 0x800 < s.aText
  {
    var t := Target(12, 12, 0x1000, 32, false, 0, true, false);
    var s := Sections(false, true, 0x1000, 0x2000, true, 0x1800, 0, false, 0, 0, 0);
    Large60();
    ContiguousReaches(t, s);
    NoWrap(0x800);
  }

  lemma Large60()
    ensures TwoTo(60) > 0x1_0000_0000
  {
    hide TwoTo;
    TwoToSum(32, 28);
    TwoToWords();
    TwoToSum(1, 27);
    LargeMultiple(TwoTo(27), 2);
    OneBit();
    LargeMultiple(TwoTo(28) - 1, TWO32);
    Distribute(TwoTo(28), 1, TWO32);
  }

  lemma OneBit()
    ensures TwoTo(1) == 2
  {
  }

  /** Data and text are as far apart in the file as in memory, when the file is mapped in one piece and
      the data section comes behind the text section; otherwise data directly follows the padding. */
  lemma DistanceKept(t: Target, s: Sections)
    requires ValidTarget(t) && ValidSections(s) && Roomy(t, s)
    ensures t.contiguous && DataVma(t, s) >= TextVma(t, s) + PaddedText(t, s) ==>
              DataFilepos(t, s) - TextFilepos(t) == DataVma(t, s) - TextVma(t, s)
    ensures !t.contiguous ==> DataFilepos(t, s) - TextFilepos(t) == PaddedText(t, s)
  {
    hide Rem, TwoTo, Align, PaddedText, TextVma, Wrap;
    PaddedExact(t, s);
    Bounds(60);
    DataBound(t, s);
    if t.contiguous {
      ContiguousReaches(t, s);
      if DataVma(t, s) >= TextVma(t, s) {
        NoWrap(DataVma(t, s) - TextVma(t, s));
        NoWrap(TextFilepos(t) + FinalText(t, s));
      }
    } else {
      NoWrap(TextFilepos(t) + PaddedText(t, s));
    }
  }

  // ---------------------------------------------------------------------------------------
  // Data and bss
  // ---------------------------------------------------------------------------------------

  /** The data section is rounded up to whole pages, and what that adds is taken off the bss section
      only where the bss section follows; in no case does the program get less memory. */
  lemma DataAndBss(t: Target, s: Sections)
    requires ValidTarget(t) && ValidSections(s) && Roomy(t, s)
    ensures Rem(DataSize(t, s), Page(t)) == 0 && DataSize(t, s) >= s.dataSize
    ensures DataSize(t, s) + BssSize(t, s)
            == if !BssFollows(t, s) then DataSize(t, s) + s.bssSize
               else if DataSize(t, s) > s.dataSize + s.bssSize then DataSize(t, s)
               else s.dataSize + s.bssSize
  {
    hide Rem, TwoTo, Align, AlignPower, BssFollows, Wrap;
    Bounds(s.bssAlign);
    Bounds(t.pageBits);
    AlignExact(s.dataSize, s.bssAlign);
    AlignExact(AlignPower(s.dataSize, s.bssAlign), t.pageBits);
    NoWrap(DataSize(t, s) - s.dataSize);
  }
}
