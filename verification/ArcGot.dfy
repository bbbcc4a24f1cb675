/** The global offset table of the ARC linker: allocation of entries, relocations against them and
    the dynamic relocations that fill them. */
module ArcGot {
  import opened Bytes
  import opened AoutField

  // ---------------------------------------------------------------------------------------
  // Entries
  // ---------------------------------------------------------------------------------------

  datatype GotType = Unknown | Normal | TlsGd | TlsIe | TlsLe

  /** `enum tls_got_entries` */
  datatype Existing = NoTls | Mod | Off | ModAndOff

  /** A symbol: a global one, or a local one of an input file. */
  datatype Key = Global(id: nat) | Local(file: nat, index: nat)

  datatype Entry = Entry(kind: GotType, offset: nat, processed: bool, created: bool, existing: Existing)

  /** The bytes that an entry occupies in the table. */
  function Size(kind: GotType): nat {
    if kind == TlsGd then 8 else 4
  }

  function ExistingFor(kind: GotType): Existing {
    match kind
    case Normal => NoTls
    case Unknown => NoTls
    case TlsGd => ModAndOff
    case TlsIe => Off
    case TlsLe => Off
  }

  /** The dynamic relocations that are reserved for an entry. */
  function Need(pic: bool, key: Key, kind: GotType): nat {
    match kind
    case Normal => if pic || key.Global? then 1 else 0
    case Unknown => 0
    case TlsGd => 2
    case TlsIe => 1
    case TlsLe => 1
  }

  /** `got_entry_for_type`: where in a symbol's list the entry of a type is. */
  method EntryForType(list: seq<Entry>, kind: GotType) returns (i: int)
    ensures -1 <= i < |list|
    ensures i == -1 ==> forall j :: 0 <= j < |list| ==> list[j].kind != kind
    ensures i >= 0 ==> list[i].kind == kind
  {
    i := 0;
    while i < |list|
      invariant 0 <= i <= |list| && forall j :: 0 <= j < i ==> list[j].kind != kind
    {
      if list[i].kind == kind {
        return;
      }
      i := i + 1;
    }
    i := -1;
  }

  /** `new_got_entry_to_list`: at the end, unless the symbol has an entry of this type. */
  method NewEntryToList(list: seq<Entry>, kind: GotType, offset: nat, existing: Existing) returns (r: seq<Entry>)
    ensures r == if exists j :: 0 <= j < |list| && list[j].kind == kind then list
                 else list + [Entry(kind, offset, false, false, existing)]
  {
    var i := EntryForType(list, kind);
    r := if i >= 0 then list else list + [Entry(kind, offset, false, false, existing)];
  }

  // ---------------------------------------------------------------------------------------
  // Slots
  // ---------------------------------------------------------------------------------------

  /** An entry once it is allocated. */
  datatype Slot = Slot(key: Key, kind: GotType, offset: nat)

  function End(s: Slot): nat {
    s.offset + Size(s.kind)
  }

  /** The slots lie one behind the other between the start and the end of the table. */
  predicate Packed(slots: seq<Slot>, start: nat, end: nat) {
    && start <= end
    && (forall i :: 0 <= i < |slots| ==> start <= slots[i].offset && End(slots[i]) <= end)
    && (forall i, j :: 0 <= i < j < |slots| ==> End(slots[i]) <= slots[j].offset)
  }

  /** No symbol has two slots of one type. */
  predicate OneEach(slots: seq<Slot>) {
    forall i, j :: 0 <= i < j < |slots| ==> slots[i].key != slots[j].key || slots[i].kind != slots[j].kind
  }

  function Reserved(pic: bool, slots: seq<Slot>): nat {
    if slots == [] then 0
    else Reserved(pic, slots[..|slots| - 1]) + Need(pic, slots[|slots| - 1].key, slots[|slots| - 1].kind)
  }

  function Sum(ns: seq<nat>): nat {
    if ns == [] then 0 else Sum(ns[..|ns| - 1]) + ns[|ns| - 1]
  }

  lemma {:induction false} SumUpdate(ns: seq<nat>, i: nat, n: nat)
    requires i < |ns| && ns[i] == 0
    ensures Sum(ns[i := n]) == Sum(ns) + n
  {
    var last := |ns| - 1;
    if i == last {
      assert ns[i := n][..last] == ns[..last];
    } else {
      SumUpdate(ns[..last], i, n);
      assert ns[i := n][..last] == ns[..last][i := n];
    }
  }

  /** What is used slot by slot does not exceed what is reserved slot by slot. */
  lemma {:induction false} UsedBelowReserved(pic: bool, slots: seq<Slot>, used: seq<nat>)
    requires |slots| == |used|
    requires forall i :: 0 <= i < |slots| ==> used[i] <= Need(pic, slots[i].key, slots[i].kind)
    ensures Sum(used) <= Reserved(pic, slots)
  {
    if slots != [] {
      UsedBelowReserved(pic, slots[..|slots| - 1], used[..|slots| - 1]);
    }
  }

  lemma ReservedNext(pic: bool, slots: seq<Slot>, s: Slot)
    ensures Reserved(pic, slots + [s]) == Reserved(pic, slots) + Need(pic, s.key, s.kind)
  {
    assert (slots + [s])[..|slots|] == slots;
  }

  lemma SumNext(ns: seq<nat>, n: nat)
    ensures Sum(ns + [n]) == Sum(ns) + n
  {
    assert (ns + [n])[..|ns|] == ns;
  }

  // ---------------------------------------------------------------------------------------
  // Lists and slots
  // ---------------------------------------------------------------------------------------

  type Lists = map<Key, seq<Entry>>

  function ListOf(lists: Lists, key: Key): seq<Entry> {
    if key in lists then lists[key] else []
  }

  /** Entry `e` of a symbol is in slot `i`; relocations were emitted for it only if that is noted. */
  predicate InSlot(slots: seq<Slot>, used: seq<nat>, key: Key, e: Entry, i: int) {
    && 0 <= i < |slots| == |used| && slots[i] == Slot(key, e.kind, e.offset)
    && (used[i] == 0 || e.created) && e.existing == ExistingFor(e.kind)
  }

  ghost predicate Placed(slots: seq<Slot>, used: seq<nat>, key: Key, e: Entry) {
    exists i :: InSlot(slots, used, key, e, i)
  }

  /** Every entry of every list has its slot, and every slot its entry. */
  ghost predicate Matched(lists: Lists, slots: seq<Slot>, used: seq<nat>) {
    && (forall key, j :: key in lists && 0 <= j < |lists[key]| ==> Placed(slots, used, key, lists[key][j]))
    && (forall i :: 0 <= i < |slots| ==> Has(lists, slots[i].key, slots[i].kind))
    && (forall key :: key in lists ==> KindsDiffer(lists[key]))
  }

  /** A symbol has at most one entry of each type. */
  predicate KindsDiffer(list: seq<Entry>) {
    forall j, k :: 0 <= j < k < |list| ==> list[j].kind != list[k].kind
  }

  /** A new entry in a new slot. */
  lemma MatchedNext(lists: Lists, slots: seq<Slot>, used: seq<nat>, key: Key, e: Entry)
    requires Matched(lists, slots, used) && |slots| == |used| && !Has(lists, key, e.kind)
    requires e.existing == ExistingFor(e.kind)
    ensures Matched(lists[key := ListOf(lists, key) + [e]], slots + [Slot(key, e.kind, e.offset)], used + [0])
    ensures OneEach(slots) ==> OneEach(slots + [Slot(key, e.kind, e.offset)])
  {
    hide Placed, Has, KindsDiffer;
    var lists', slots' := lists[key := ListOf(lists, key) + [e]], slots + [Slot(key, e.kind, e.offset)];
    var used' := used + [0];
    forall k, j | k in lists' && 0 <= j < |lists'[k]|
      ensures Placed(slots', used', k, lists'[k][j])
    {
      if k == key && j == |lists'[k]| - 1 {
        NewPlaced(slots, used, key, e);
      } else {
        StillPlaced(slots, used, k, lists[k][j], Slot(key, e.kind, e.offset));
      }
    }
    forall i | 0 <= i < |slots'|
      ensures Has(lists', slots'[i].key, slots'[i].kind)
    {
      if i == |slots| {
        NewHas(lists, key, e);
      } else {
        HasGrows(lists, key, e, slots[i].key, slots[i].kind);
      }
    }
    NewDiffers(lists, key, e);
    forall i | 0 <= i < |slots|
      ensures slots[i].key != key || slots[i].kind != e.kind
    {
      assert Has(lists, slots[i].key, slots[i].kind);
    }
  }

  lemma NewPlaced(slots: seq<Slot>, used: seq<nat>, key: Key, e: Entry)
    requires |slots| == |used| && e.existing == ExistingFor(e.kind)
    ensures Placed(slots + [Slot(key, e.kind, e.offset)], used + [0], key, e)
  {
    assert InSlot(slots + [Slot(key, e.kind, e.offset)], used + [0], key, e, |slots|);
  }

  lemma StillPlaced(slots: seq<Slot>, used: seq<nat>, k: Key, e: Entry, s: Slot)
    requires |slots| == |used| && Placed(slots, used, k, e)
    ensures Placed(slots + [s], used + [0], k, e)
  {
    var i :| InSlot(slots, used, k, e, i);
    assert InSlot(slots + [s], used + [0], k, e, i);
  }

  lemma NewHas(lists: Lists, key: Key, e: Entry)
    ensures Has(lists[key := ListOf(lists, key) + [e]], key, e.kind)
  {
    var list := ListOf(lists, key) + [e];
    assert lists[key := list][key][|list| - 1].kind == e.kind;
  }

  lemma NewDiffers(lists: Lists, key: Key, e: Entry)
    requires (key in lists ==> KindsDiffer(lists[key])) && !Has(lists, key, e.kind)
    ensures KindsDiffer(ListOf(lists, key) + [e])
  {
  }

  lemma HasGrows(lists: Lists, key: Key, e: Entry, k: Key, kind: GotType)
    requires Has(lists, k, kind)
    ensures Has(lists[key := ListOf(lists, key) + [e]], k, kind)
  {
    var j :| 0 <= j < |lists[k]| && lists[k][j].kind == kind;
    assert lists[key := ListOf(lists, key) + [e]][k][j].kind == kind;
  }

  /** An entry that is noted as processed or as having its relocations. */
  lemma MatchedUpdate(lists: Lists, slots: seq<Slot>, used: seq<nat>, key: Key, j: nat, f: Entry, i: nat, n: nat)
    requires Matched(lists, slots, used) && OneEach(slots) && key in lists && j < |lists[key]|
    requires InSlot(slots, used, key, lists[key][j], i)
    requires var e := lists[key][j];
             f.kind == e.kind && f.offset == e.offset && f.existing == e.existing && (e.created ==> f.created)
    requires n == used[i] || f.created
    ensures Matched(lists[key := lists[key][j := f]], slots, used[i := n])
  {
    hide Placed, Has, KindsDiffer;
    var lists', used' := lists[key := lists[key][j := f]], used[i := n];
    forall k, m | k in lists' && 0 <= m < |lists'[k]|
      ensures Placed(slots, used', k, lists'[k][m])
    {
      if k == key && m == j {
        PlacedAt(slots, used', k, f, i);
      } else {
        OtherPlaced(lists, slots, used, key, j, i, n, k, m);
      }
    }
    forall x | 0 <= x < |slots|
      ensures Has(lists', slots[x].key, slots[x].kind)
    {
      StillHas(lists, key, j, f, slots[x].key, slots[x].kind);
    }
    StillDiffers(lists[key], j, f);
  }

  lemma PlacedAt(slots: seq<Slot>, used: seq<nat>, k: Key, e: Entry, i: int)
    requires InSlot(slots, used, k, e, i)
    ensures Placed(slots, used, k, e)
  {
  }

  /** The slot of another entry is another slot. */
  lemma OtherPlaced(lists: Lists, slots: seq<Slot>, used: seq<nat>, key: Key, j: nat, i: nat, n: nat, k: Key, m: nat)
    requires Matched(lists, slots, used) && key in lists && j < |lists[key]|
    requires InSlot(slots, used, key, lists[key][j], i)
    requires k in lists && m < |lists[k]| && (k != key || m != j)
    ensures Placed(slots, used[i := n], k, lists[k][m])
  {
    assert Placed(slots, used, k, lists[k][m]);
    var x :| InSlot(slots, used, k, lists[k][m], x);
    assert x != i by { assert KindsDiffer(lists[key]); }
    assert InSlot(slots, used[i := n], k, lists[k][m], x);
  }

  lemma StillHas(lists: Lists, key: Key, j: nat, f: Entry, k: Key, kind: GotType)
    requires key in lists && j < |lists[key]| && f.kind == lists[key][j].kind && Has(lists, k, kind)
    ensures Has(lists[key := lists[key][j := f]], k, kind)
  {
    var m :| 0 <= m < |lists[k]| && lists[k][m].kind == kind;
    assert lists[key := lists[key][j := f]][k][m].kind == kind;
  }

  lemma StillDiffers(list: seq<Entry>, j: nat, f: Entry)
    requires KindsDiffer(list) && j < |list| && f.kind == list[j].kind
    ensures KindsDiffer(list[j := f])
  {
  }

  ghost predicate Has(lists: Lists, key: Key, kind: GotType) {
    key in lists && exists j :: 0 <= j < |lists[key]| && lists[key][j].kind == kind
  }

  // ---------------------------------------------------------------------------------------
  // The table
  // ---------------------------------------------------------------------------------------

  datatype RelaType = Relative | GlobDat | DtpMod | DtpOff | TpOff

  datatype Rela = Rela(offset: nat, dynindx: nat, kind: RelaType, addend: int)

  class Got {
    const pic: bool
    const start: nat
    /** `sgot->size`, and `srelgot->size` in records. */
    var size: nat
    var reserved: nat
    var lists: Lists
    /** The records written to `srelgot`. */
    var emitted: seq<Rela>
    ghost var slots: seq<Slot>
    ghost var used: seq<nat>

    constructor (pic: bool, start: nat)
      ensures Valid() && this.pic == pic && this.start == start && slots == [] && emitted == []
    {
      this.pic, this.start, size, reserved, lists, emitted, slots, used := pic, start, start, 0, map[], [], [], [];
    }

    ghost predicate Valid()
      reads this
    {
      && |slots| == |used| && Packed(slots, start, size) && OneEach(slots) && Matched(lists, slots, used)
      && reserved >= Reserved(pic, slots) && |emitted| == Sum(used)
      && forall i :: 0 <= i < |slots| ==> used[i] <= Need(pic, slots[i].key, slots[i].kind)
    }

    /** The dynamic relocations emitted never exceed the records reserved. */
    lemma EmittedFits()
      requires Valid()
      ensures |emitted| <= reserved
    {
      UsedBelowReserved(pic, slots, used);
    }

    /** Entries of different symbols or of different types do not overlap, and lie in the table. */
    lemma EntriesApart(key: Key, j: nat, key': Key, j': nat)
      requires Valid() && key in lists && j < |lists[key]| && key' in lists && j' < |lists[key']|
      requires key != key' || lists[key][j].kind != lists[key'][j'].kind
      ensures var e, f := lists[key][j], lists[key'][j'];
              && start <= e.offset && e.offset + Size(e.kind) <= size
              && (e.offset + Size(e.kind) <= f.offset || f.offset + Size(f.kind) <= e.offset)
    {
      assert Placed(slots, used, key, lists[key][j]) && Placed(slots, used, key', lists[key'][j']);
      var i :| InSlot(slots, used, key, lists[key][j], i);
      var i' :| InSlot(slots, used, key', lists[key'][j'], i');
      assert i != i';
    }

    /** One word of the table and, on a condition, one dynamic relocation; fails if the symbol cannot
        be recorded as a dynamic one. */
    method AddWord(reserve: bool, recordable: bool) returns (ok: bool)
      modifies this`size, this`reserved
      ensures reserved == old(reserved) + (if reserve then 1 else 0)
      ensures ok == recordable && size == old(size) + (if ok then 4 else 0)
    {
      if reserve { reserved := reserved + 1; }
      if !recordable {
        return false;
      }
      size := size + 4;
      ok := true;
    }

    /** `arc_fill_got_info_for_reloc`: the symbol has an entry of this type, or gets one at the end of
        the table.  `recordable` says whether a global symbol is or can be made a dynamic one. */
    method FillForReloc(kind: GotType, key: Key, recordable: bool) returns (ok: bool)
      requires Valid() && (key.Local? ==> recordable)
      modifies this`size, this`reserved, this`lists, this`slots, this`used
      ensures Valid() && old(slots) <= slots
      ensures ok <==> old(Has(lists, key, kind)) || (kind != Unknown && recordable)
      ensures ok ==> Has(lists, key, kind)
      ensures old(Has(lists, key, kind)) ==> size == old(size) && reserved == old(reserved) && lists == old(lists)
      ensures ok && !old(Has(lists, key, kind)) ==>
                && slots == old(slots) + [Slot(key, kind, old(size))] && size == old(size) + Size(kind)
                && reserved == old(reserved) + Need(pic, key, kind)
                && lists == old(lists)[key := ListOf(old(lists), key)
                                              + [Entry(kind, old(size), false, false, ExistingFor(kind))]]
      ensures !ok ==> lists == old(lists) && slots == old(slots)
    {
      hide Matched, OneEach, Reserved, Sum, Packed;
      var list := ListOf(lists, key);
      var i := EntryForType(list, kind);
      if i >= 0 {
        assert lists[key][i].kind == kind;
        return true;
      }
      var offset := size;
      ok := AddWords(kind, key, recordable);
      if ok {
        AddEntry(key, kind, offset);
      } else {
        PackedGrows(slots, start, offset, size);
      }
    }

    /** The words and relocations that an entry of this type needs. */
    method AddWords(kind: GotType, key: Key, recordable: bool) returns (ok: bool)
      modifies this`size, this`reserved
      ensures ok <==> kind != Unknown && recordable
      ensures ok ==> size == old(size) + Size(kind) && reserved == old(reserved) + Need(pic, key, kind)
      ensures size >= old(size) && reserved >= old(reserved)
    {
      match kind {
        case Unknown => ok := false;
        case Normal => ok := AddWord(pic || key.Global?, recordable);
        case TlsGd =>
          ok := AddWord(true, recordable);
          if ok { ok := AddWord(true, recordable); }
        case TlsIe => ok := AddWord(true, recordable);
        case TlsLe => ok := AddWord(true, recordable);
      }
    }

    /** The entry for words just added. */
    method AddEntry(key: Key, kind: GotType, offset: nat)
      requires |slots| == |used| && Packed(slots, start, offset) && OneEach(slots) && Matched(lists, slots, used)
      requires |emitted| == Sum(used) && size == offset + Size(kind) && !Has(lists, key, kind)
      requires reserved >= Reserved(pic, slots) + Need(pic, key, kind)
      requires forall i :: 0 <= i < |slots| ==> used[i] <= Need(pic, slots[i].key, slots[i].kind)
      modifies this`lists, this`slots, this`used
      ensures Valid() && Has(lists, key, kind) && slots == old(slots) + [Slot(key, kind, offset)]
      ensures lists
              == old(lists)[key := ListOf(old(lists), key) + [Entry(kind, offset, false, false, ExistingFor(kind))]]
    {
      hide Matched, OneEach, Reserved, Sum, Packed;
      var e := Entry(kind, offset, false, false, ExistingFor(kind));
      var list := NewEntryToList(ListOf(lists, key), kind, offset, ExistingFor(kind));
      MatchedNext(lists, slots, used, key, e);
      PackedNext(slots, start, offset, Slot(key, kind, offset));
      ReservedNext(pic, slots, Slot(key, kind, offset));
      SumNext(used, 0);
      lists := lists[key := list];
      slots, used := slots + [Slot(key, kind, offset)], used + [0];
      assert lists[key][|list| - 1].kind == kind;
    }

    /** `relocate_fix_got_relocs_for_got_info`: the word of a symbol that is bound now is written,
        once, into the entry's own slot and nowhere else. */
    method FixForReloc(contents: array<byte>, big: bool, key: Key, kind: GotType, sym: Resolution)
      returns (offset: nat, ghost slot: nat)
      requires Valid() && contents.Length >= size && (kind == Unknown || kind == TlsLe || Has(lists, key, kind))
      modifies this`lists, contents
      ensures Valid()
      ensures kind == Unknown || kind == TlsLe ==>
                offset == 0 && contents[..] == old(contents[..]) && lists == old(lists)
      ensures kind != Unknown && kind != TlsLe ==>
                slot < |slots| && slots[slot] == Slot(key, kind, offset)
                && Written(old(contents[..]), contents[..], big, slots[slot],
                           if sym.Resolved(key) && !old(Processed(lists, key, kind)) then sym.Word(key, kind) else None)
      ensures kind != Unknown && kind != TlsLe && sym.Resolved(key) ==> Processed(lists, key, kind)
    {
      if kind == Unknown || kind == TlsLe {
        return 0, 0;
      }
      hide Valid, Written, Processed;
      var list := lists[key];
      var j := EntryForType(list, kind);
      var e := list[j];
      offset := e.offset;
      slot := FindSlot(key, j);
      TheEntry(key, j);
      if sym.Resolved(key) && !e.processed {
        WriteEntry(contents, big, Slot(key, kind, e.offset), sym.Word(key, kind));
        MarkProcessed(key, j);
      } else {
        NothingWritten(contents[..], big, slots[slot]);
      }
    }

    method MarkProcessed(key: Key, j: nat)
      requires Valid() && key in lists && j < |lists[key]|
      modifies this`lists
      ensures Valid() && Processed(lists, key, old(lists)[key][j].kind)
      ensures lists == old(lists)[key := old(lists)[key][j := old(lists)[key][j].(processed := true)]]
    {
      hide Matched, OneEach, Reserved, Sum;
      ghost var slot := FindSlot(key, j);
      var e := lists[key][j].(processed := true);
      MatchedUpdate(lists, slots, used, key, j, e, slot, used[slot]);
      assert used[slot := used[slot]] == used;
      lists := lists[key := lists[key][j := e]];
      assert lists[key][j].processed;
    }

    lemma TheEntry(key: Key, j: nat)
      requires Valid() && key in lists && j < |lists[key]|
      ensures Processed(lists, key, lists[key][j].kind) <==> lists[key][j].processed
    {
      assert KindsDiffer(lists[key]);
    }

    /** `create_got_dynrelocs_for_single_entry`: the dynamic relocations of an entry, once; they apply
        to the entry's own words. */
    method EmitForEntry(contents: seq<byte>, big: bool, key: Key, j: nat, sym: DynamicSymbol)
      requires Valid() && |contents| >= size && key in lists && j < |lists[key]|
      modifies this`lists, this`emitted, this`used
      ensures Valid() && slots == old(slots)
      ensures var e := old(lists)[key][j];
              && e.offset + 4 <= |contents|
              && emitted == old(emitted) + Pending(pic, key, e, sym, contents, big)
              && lists == old(lists)[key := old(lists)[key][j := Finished(e)]]
    {
      hide Matched, OneEach, Reserved, Sum, Dynrelocs;
      var e := lists[key][j];
      ghost var i := FindSlot(key, j);
      if e.created || (e.kind != Normal && e.existing == NoTls) {
        assert lists[key][j := e] == lists[key];
        return;
      }
      var relocs := Dynrelocs(pic, key, e, sym, contents, big);
      DynrelocsFit(pic, key, e, sym, contents, big);
      SumUpdate(used, i, |relocs|);
      MatchedUpdate(lists, slots, used, key, j, e.(created := true), i, |relocs|);
      emitted := emitted + relocs;
      used := used[i := |relocs|];
      lists := lists[key := lists[key][j := e.(created := true)]];
    }

    /** `create_got_dynrelocs_for_got_info`: all entries of a symbol. */
    method EmitForSymbol(contents: seq<byte>, big: bool, key: Key, sym: DynamicSymbol)
      requires Valid() && |contents| >= size
      modifies this`lists, this`emitted, this`used
      ensures Valid() && slots == old(slots) && |emitted| <= reserved
      ensures InContents(ListOf(old(lists), key), contents)
      ensures var list := ListOf(old(lists), key);
              emitted == old(emitted) + AllPending(pic, key, list, |list|, sym, contents, big)
      ensures ListOf(lists, key) == AllFinished(ListOf(old(lists), key), |ListOf(old(lists), key)|)
    {
      hide Valid, Pending, InContents, AllFinished, AllPending;
      ghost var list := ListOf(lists, key);
      AllInContents(key, contents);
      NoneFinished(pic, key, list, sym, contents, big);
      var j := 0;
      while j < |ListOf(lists, key)|
        invariant Valid() && slots == old(slots) && j <= |list|
        invariant emitted == old(emitted) + AllPending(pic, key, list, j, sym, contents, big)
        invariant ListOf(lists, key) == AllFinished(list, j)
        decreases |list| - j
      {
        OneFinished(pic, key, list, j, sym, contents, big, old(emitted));
        EmitForEntry(contents, big, key, j, sym);
        j := j + 1;
      }
      EmittedFits();
    }

    lemma AllInContents(key: Key, contents: seq<byte>)
      requires Valid() && |contents| >= size
      ensures InContents(ListOf(lists, key), contents)
    {
      hide Matched, OneEach, Reserved, Sum;
      forall k | 0 <= k < |ListOf(lists, key)|
        ensures ListOf(lists, key)[k].offset + 4 <= |contents|
      {
        var i := FindSlot(key, k);
      }
    }

    lemma FindSlot(key: Key, j: nat) returns (i: nat)
      requires Valid() && key in lists && j < |lists[key]|
      ensures InSlot(slots, used, key, lists[key][j], i) && End(slots[i]) <= size
    {
      assert Placed(slots, used, key, lists[key][j]);
      i :| InSlot(slots, used, key, lists[key][j], i);
    }
  }

  ghost predicate Processed(lists: Lists, key: Key, kind: GotType) {
    key in lists && exists j :: 0 <= j < |lists[key]| && lists[key][j].kind == kind && lists[key][j].processed
  }

  /** What the dynamic relocations of a symbol depend on; `dynindx` is -1 if it is not dynamic. */
  datatype DynamicSymbol = DynamicSymbol(dynindx: int, symbolic: bool, defRegular: bool)

  function Dynrelocs(pic: bool, key: Key, e: Entry, sym: DynamicSymbol, contents: seq<byte>, big: bool): seq<Rela>
    requires e.offset + 4 <= |contents|
  {
    var index := if key.Local? || sym.dynindx < 0 then 0 else sym.dynindx;
    if e.kind == Normal then
      if pic && key.Global? && (sym.symbolic || sym.dynindx < 0) && sym.defRegular then [Rela(e.offset, 0, Relative, 0)]
      else if key.Global? && sym.dynindx >= 0 then [Rela(e.offset, sym.dynindx, GlobDat, 0)]
      else []
    else
      (if e.existing == ModAndOff || e.existing == Mod then [Rela(e.offset, index, DtpMod, 0)] else [])
      + (if e.existing == ModAndOff || e.existing == Off then
           [Rela(e.offset + (if e.existing == ModAndOff then 4 else 0), index,
                 if e.kind == TlsIe then TpOff else DtpOff,
                 if e.kind == TlsIe then Get32(big, contents[e.offset..e.offset + 4]) else 0)]
         else [])
  }

  /** The entry once its relocations are emitted. */
  function Finished(e: Entry): Entry {
    if e.kind != Normal && e.existing == NoTls then e else e.(created := true)
  }

  /** The relocations that an entry still has to get. */
  function Pending(pic: bool, key: Key, e: Entry, sym: DynamicSymbol, contents: seq<byte>, big: bool): seq<Rela>
    requires e.offset + 4 <= |contents|
  {
    if e.created || (e.kind != Normal && e.existing == NoTls) then [] else Dynrelocs(pic, key, e, sym, contents, big)
  }

  predicate InContents(list: seq<Entry>, contents: seq<byte>) {
    forall k :: 0 <= k < |list| ==> list[k].offset + 4 <= |contents|
  }

  function AllPending(pic: bool, key: Key, list: seq<Entry>, n: nat, sym: DynamicSymbol, contents: seq<byte>,
                      big: bool): seq<Rela>
    requires n <= |list| && InContents(list, contents)
  {
    if n == 0 then []
    else AllPending(pic, key, list, n - 1, sym, contents, big) + Pending(pic, key, list[n - 1], sym, contents, big)
  }

  /** The list with its first `n` entries finished. */
  function AllFinished(list: seq<Entry>, n: nat): (r: seq<Entry>)
    requires n <= |list|
    ensures |r| == |list|
  {
    seq(|list|, k requires 0 <= k < |list| => if k < n then Finished(list[k]) else list[k])
  }

  lemma NoneFinished(pic: bool, key: Key, list: seq<Entry>, sym: DynamicSymbol, contents: seq<byte>, big: bool)
    requires InContents(list, contents)
    ensures AllFinished(list, 0) == list && AllPending(pic, key, list, 0, sym, contents, big) == []
  {
  }

  lemma OneFinished(pic: bool, key: Key, list: seq<Entry>, j: nat, sym: DynamicSymbol, contents: seq<byte>, big: bool,
                    before: seq<Rela>)
    requires j < |list| && InContents(list, contents)
    ensures AllFinished(list, j)[j] == list[j]
    ensures AllFinished(list, j)[j := Finished(list[j])] == AllFinished(list, j + 1)
    ensures list[j].offset + 4 <= |contents|
    ensures before + AllPending(pic, key, list, j + 1, sym, contents, big)
            == before + AllPending(pic, key, list, j, sym, contents, big)
               + Pending(pic, key, list[j], sym, contents, big)
  {
    hide Pending, Finished;
    Regroup(before, AllPending(pic, key, list, j, sym, contents, big), Pending(pic, key, list[j], sym, contents, big));
  }

  /** They need no more than was reserved, and stay in the entry. */
  lemma DynrelocsFit(pic: bool, key: Key, e: Entry, sym: DynamicSymbol, contents: seq<byte>, big: bool)
    requires e.offset + 4 <= |contents| && e.existing == ExistingFor(e.kind)
    ensures var rs := Dynrelocs(pic, key, e, sym, contents, big);
            && |rs| <= Need(pic, key, e.kind)
            && forall k :: 0 <= k < |rs| ==> e.offset <= rs[k].offset && rs[k].offset + 4 <= e.offset + Size(e.kind)
  {
    hide Get32;
  }

  /** The word of an entry is written, and no byte outside the entry. */
  ghost predicate Written(before: seq<byte>, after: seq<byte>, big: bool, s: Slot, word: Option<int>) {
    && |after| == |before| && End(s) <= |before|
    && (forall k :: 0 <= k < |before| && !(s.offset <= k < End(s)) ==> after[k] == before[k])
    && (word.None? ==> after == before)
    && (word.Some? ==>
          var at := End(s) - 4;
          after[at..at + 4] == Put32(big, Rem(word.value, TWO32)))
  }

  lemma NothingWritten(c: seq<byte>, big: bool, s: Slot)
    requires End(s) <= |c|
    ensures Written(c, c, big, s, None)
  {
  }

  /** The last word of an entry is the one that holds a value. */
  method WriteEntry(contents: array<byte>, big: bool, s: Slot, word: Option<int>)
    requires End(s) <= contents.Length
    modifies contents
    ensures Written(old(contents[..]), contents[..], big, s, word)
  {
    hide Put32, Rem;
    if word.Some? {
      PutWord(contents, big, s.offset + (if ExistingFor(s.kind) == ModAndOff then 4 else 0), Rem(word.value, TWO32));
    }
  }

  method PutWord(contents: array<byte>, big: bool, at: nat, v: nat)
    requires at + 4 <= contents.Length && v < TWO32
    modifies contents
    ensures contents[at..at + 4] == Put32(big, v)
    ensures forall k :: 0 <= k < contents.Length && !(at <= k < at + 4) ==> contents[k] == old(contents[k])
  {
    hide Put32;
    var w := Put32(big, v);
    contents[at], contents[at + 1], contents[at + 2], contents[at + 3] := w[0], w[1], w[2], w[3];
  }

  /** What is known of a symbol when its relocations are processed: whether it is bound now, its
      address, and where the thread-local section is. */
  datatype Resolution = Resolution(forcedLocal: bool, dynamic: bool, refersLocal: bool, undefWeak: bool, address: int,
                                   tlsVma: int, tlsAlign: nat) {
    predicate Resolved(key: Key) {
      key.Local? || forcedLocal || !dynamic || refersLocal
    }

    /** The word to write, if one is to be written. */
    function Word(key: Key, kind: GotType): Option<int> {
      match kind
      case TlsGd =>
        if key.Local? || forcedLocal || !dynamic then
          Some(address - tlsVma + (if dynamic then 0 else AlignPower(0, tlsAlign)))
        else None
      case TlsIe => Some(address - tlsVma + (if dynamic then 0 else AlignPower(8, tlsAlign)))
      case Normal => if key.Global? && undefWeak then None else Some(address)
      case Unknown => None
      case TlsLe => None
    }
  }

  lemma PackedNext(slots: seq<Slot>, start: nat, end: nat, s: Slot)
    requires Packed(slots, start, end) && s.offset == end
    ensures Packed(slots + [s], start, End(s))
  {
  }

  lemma PackedGrows(slots: seq<Slot>, start: nat, end: nat, more: nat)
    requires Packed(slots, start, end) && end <= more
    ensures Packed(slots, start, more)
  {
  }
}
