/** Writing the symbols of a final a.out link. */
module AoutSymbols {
  import opened Bytes
  import opened AoutField
  import opened AoutTypes
  import opened AoutStabs

  // ---------------------------------------------------------------------------------------
  // Symbol types
  // ---------------------------------------------------------------------------------------

  const EXTERNAL_NLIST_SIZE: nat := 12

  /** `type & N_TYPE` */
  function BaseType(t: nat): nat {
    t % 32 / 2 * 2
  }

  /** `type & N_STAB`: a debugging symbol. */
  predicate IsStab(t: nat) {
    t >= 32
  }

  datatype OutSection = Text | Data | Bss | Abs

  /** The type of a defined symbol, and of a weak one. */
  function SectionType(sec: OutSection, weak: bool): nat {
    match sec
    case Text => if weak then N_WEAKT else N_TEXT
    case Data => if weak then N_WEAKD else N_DATA
    case Bss => if weak then N_WEAKB else N_BSS
    case Abs => if weak then N_WEAKA else N_ABS
  }

  /** The lowest bit set, as `|= N_EXT` does. */
  function External(t: nat): nat {
    if t % 2 == 0 then t + 1 else t
  }

  // ---------------------------------------------------------------------------------------
  // The hash table
  // ---------------------------------------------------------------------------------------

  /** What the linker knows of a global symbol.  A defined symbol has its final address. */
  datatype EntryKind =
    | New
    | Undefined
    | UndefWeak
    | Defined(sec: OutSection, address: int, weak: bool)
    | Common(size: nat)
    | Indirect(link: Entry)
    | Warning(link: Entry)

  class Entry {
    const name: bytes
    const kind: EntryKind
    var written: bool
    /** The index of the symbol's record: -1 while there is none, -2 if there has to be one. */
    var indx: int
    /** Links lead to lower ranks. */
    ghost const rank: nat

    constructor (name: bytes, kind: EntryKind, ghost rank: nat)
      ensures this.name == name && this.kind == kind && this.rank == rank && !written && indx == -1
    {
      this.name, this.kind, this.rank := name, kind, rank;
      written, indx := false, -1;
    }
  }

  predicate Refers(kind: EntryKind) {
    kind.Indirect? || kind.Warning?
  }

  /** The record of a symbol that comes from no input file; none for a symbol that stands for
      another one or that was never given a meaning. */
  function OtherRecord(h: Entry): Option<Nlist> {
    match h.kind
    case Undefined => Some(Nlist(h.name, N_UNDF + N_EXT, 0, 0, 0))
    case UndefWeak => Some(Nlist(h.name, N_WEAKU, 0, 0, 0))
    case Defined(sec, address, weak) =>
      Some(Nlist(h.name, External(SectionType(sec, weak)), 0, 0, Rem(address, TWO32)))
    case Common(size) => Some(Nlist(h.name, N_UNDF + N_EXT, 0, 0, Rem(size, TWO32)))
    case New => None
    case Indirect(_) => None
    case Warning(_) => None
  }

  /** The types of weak symbols use up the bit that says external: a weak symbol in the data section
      is written as one in the bss section, and a weak absolute one as one in the text section. */
  lemma ExternalExact(sec: OutSection, weak: bool)
    ensures External(SectionType(sec, weak))
            == (if weak then SectionType(sec, weak) else SectionType(sec, weak) + N_EXT)
            <==> !(weak && (sec == Data || sec == Abs))
    ensures External(SectionType(Data, true)) == SectionType(Bss, true)
    ensures External(SectionType(Abs, true)) == SectionType(Text, true)
  {
  }

  // ---------------------------------------------------------------------------------------
  // The symbols of an input file
  // ---------------------------------------------------------------------------------------

  /** An input file: its symbols, the entries of the global ones, by how much its sections move, and
      the address of its text section in the output. */
  datatype Input = Input(filename: bytes, syms: seq<Nlist>, hashes: seq<Entry?>, text: int, data: int, bss: int,
                         address: int)

  function MovedBy(input: Input, sec: OutSection): int {
    match sec
    case Text => input.text
    case Data => input.data
    case Bss => input.bss
    case Abs => 0
  }

  /** The section that a type names. */
  function SymSection(t: nat): Option<OutSection> {
    if BaseType(t) == N_TEXT || t == N_WEAKT then Some(Text)
    else if BaseType(t) == N_DATA || t == N_WEAKD then Some(Data)
    else if BaseType(t) == N_BSS || t == N_WEAKB then Some(Bss)
    else if BaseType(t) == N_ABS || t == N_WEAKA then Some(Abs)
    else None
  }

  /** The section that the type of a set element names. */
  function SetSection(t: nat): Option<OutSection> {
    if BaseType(t) == N_SETT then Some(Text)
    else if BaseType(t) == N_SETD then Some(Data)
    else if BaseType(t) == N_SETB then Some(Bss)
    else if BaseType(t) == N_SETA then Some(Abs)
    else None
  }

  /** The symbol behind this one belongs to it. */
  predicate Redirects(t: nat) {
    BaseType(t) == N_INDR || t == N_WARNING
  }

  predicate Known(h: Entry?) {
    h != null && (h.kind.Defined? || h.kind.Common?)
  }

  /** The type and value that a symbol is written with, and what becomes of the symbol behind it:
      it is passed on as it is, or left out. */
  datatype Outcome = Outcome(kind: nat, value: int, pass: bool, skipNext: bool)

  function Translate(input: Input, s: Nlist, h: Entry?): (o: Outcome)
    ensures Plain(s) <==> o.kind != N_BINCL && o.kind != N_EINCL
    ensures !Plain(s) ==> o.kind == s.kind && !o.pass && !o.skipNext
    ensures o.pass || o.skipNext ==> Redirects(s.kind) && !(o.pass && o.skipNext)
    ensures o.kind == N_EXCL <==> s.kind == N_EXCL
  {
    var t := s.kind;
    if SymSection(t).Some? then Outcome(t, s.value + MovedBy(input, SymSection(t).value), false, false)
    else if (BaseType(t) == N_INDR && !Known(h)) || t == N_WARNING then Outcome(t, s.value, true, false)
    else if IsStab(t) then Outcome(t, s.value, false, false)
    else
      var skip := BaseType(t) == N_INDR;
      if h == null then
        Outcome(t, if SetSection(t).Some? then s.value + MovedBy(input, SetSection(t).value) else 0, false, skip)
      else
        match h.kind
        case Defined(sec, address, weak) =>
          var external := t % 2 == 1 || t in {N_SETT, N_SETD, N_SETB, N_SETA};
          var kind := SectionType(sec, weak);
          Outcome(if external then External(kind) else kind, address, false, skip)
        case Common(size) => Outcome(t, size, false, skip)
        case UndefWeak => Outcome(N_WEAKU, 0, false, skip)
        case New => Outcome(t, 0, false, skip)
        case Undefined => Outcome(t, 0, false, skip)
        case Indirect(_) => Outcome(t, 0, false, skip)
        case Warning(_) => Outcome(t, 0, false, skip)
  }

  /** What is done with a symbol: nothing, its entry has a record already, it starts a header, or it
      is copied and its entry, if there is one, gets the record. */
  datatype Action = Skip | Reuse(index: int) | Header | Copy(record: Nlist, h: Entry?)

  /** What a header is known by: its name and its checksum. */
  datatype Head = Head(name: bytes, total: nat)

  function HeadOf(syms: seq<Nlist>, i: nat): Head
    requires i < |syms|
  {
    Head(syms[i].name, Rem(HeaderSum(syms, i + 1, 0), TWO64))
  }

  /** The record of an opening symbol: its checksum, and whether the header is left out. */
  function HeaderRecord(syms: seq<Nlist>, i: nat, left: bool): Nlist
    requires i < |syms|
  {
    syms[i].(kind := if left then N_EXCL else N_BINCL, value := Rem(HeadOf(syms, i).total, TWO32))
  }

  /** A symbol that is passed through as it is. */
  function PassedOn(s: Nlist): Nlist {
    s.(value := Rem(s.value, TWO32))
  }

  datatype Strip = StripNone | StripDebugger | StripSome | StripAll
  datatype Discard = DiscardNone | DiscardL | DiscardAll

  // ---------------------------------------------------------------------------------------
  // Headers in the output
  // ---------------------------------------------------------------------------------------

  /** Where a record about a header comes from: a reference in an input file, or an opening symbol. */
  datatype Origin = Given | Headed(head: Head)

  /** Record `k` was made for an opening symbol of this header. */
  ghost predicate HeadedBy(origins: map<nat, Origin>, k: nat, head: Head) {
    k in origins && origins[k] == Headed(head)
  }

  /** One of the first `n` records opens this header. */
  ghost predicate OpenedBefore(out: seq<Nlist>, origins: map<nat, Origin>, head: Head, n: nat) {
    exists j :: 0 <= j < n && j < |out| && out[j].kind == N_BINCL && HeadedBy(origins, j, head)
  }

  predicate Noted(includes: map<bytes, seq<nat>>, head: Head) {
    head.name in includes && head.total in includes[head.name]
  }

  /** The record of an opening symbol: the first one of a header opens it, every other one refers to the
      one that does. */
  ghost predicate HeadOk(out: seq<Nlist>, origins: map<nat, Origin>, k: nat, head: Head) {
    && k < |out| && out[k].name == head.name && out[k].value == Rem(head.total, TWO32)
    && (if out[k].kind == N_EXCL then OpenedBefore(out, origins, head, k)
        else out[k].kind == N_BINCL && forall j :: 0 <= j < k ==> !HeadedBy(origins, j, head))
  }

  /** The headers noted are exactly those that records open, and every reference to a header is the
      record of an opening symbol or was a reference before. */
  ghost predicate HeadersOk(out: seq<Nlist>, includes: map<bytes, seq<nat>>, origins: map<nat, Origin>) {
    && (forall k <- origins :: k < |out|)
    && (forall k <- origins :: origins[k].Headed? ==>
          HeadOk(out, origins, k, origins[k].head) && Noted(includes, origins[k].head))
    && (forall head :: Noted(includes, head) ==> OpenedBefore(out, origins, head, |out|))
    && (forall k :: 0 <= k < |out| && out[k].kind == N_EXCL ==> k in origins)
  }

  ghost predicate Extends(a: map<nat, Origin>, b: map<nat, Origin>) {
    forall k <- a :: k in b && b[k] == a[k]
  }

  lemma HeadGrows(out: seq<Nlist>, more: seq<Nlist>, origins: map<nat, Origin>, origins': map<nat, Origin>, k: nat,
                  head: Head)
    requires HeadOk(out, origins, k, head) && out <= more && Extends(origins, origins')
    requires forall j :: j in origins' && j !in origins ==> |out| <= j
    ensures HeadOk(more, origins', k, head)
  {
    hide Rem;
    if out[k].kind == N_EXCL {
      OpenedGrows(out, more, origins, origins', head, k, k);
    } else {
      forall j | 0 <= j < k
        ensures !HeadedBy(origins', j, head)
      {
        assert !HeadedBy(origins, j, head);
      }
    }
  }

  lemma OpenedGrows(out: seq<Nlist>, more: seq<Nlist>, origins: map<nat, Origin>, origins': map<nat, Origin>,
                    head: Head, n: nat, m: nat)
    requires OpenedBefore(out, origins, head, n) && out <= more && Extends(origins, origins') && n <= m
    ensures OpenedBefore(more, origins', head, m)
  {
    var j :| 0 <= j < n && j < |out| && out[j].kind == N_BINCL && HeadedBy(origins, j, head);
    assert more[j].kind == N_BINCL && HeadedBy(origins', j, head);
  }

  /** More records leave the headers as they are. */
  lemma HeadersGrow(out: seq<Nlist>, more: seq<Nlist>, includes: map<bytes, seq<nat>>,
                    origins: map<nat, Origin>, origins': map<nat, Origin>)
    requires HeadersOk(out, includes, origins) && out <= more && Extends(origins, origins')
    requires forall k :: k in origins' && k !in origins ==> |out| <= k < |more| && origins'[k].Given?
    requires forall k :: |out| <= k < |more| && more[k].kind == N_EXCL ==> k in origins'
    ensures HeadersOk(more, includes, origins')
  {
    hide HeadOk, Noted, OpenedBefore;
    forall k | k in origins' && origins'[k].Headed?
      ensures HeadOk(more, origins', k, origins'[k].head) && Noted(includes, origins'[k].head)
    {
      HeadGrows(out, more, origins, origins', k, origins[k].head);
    }
    forall head | Noted(includes, head)
      ensures OpenedBefore(more, origins', head, |more|)
    {
      OpenedGrows(out, more, origins, origins', head, |out|, |more|);
    }
  }

  /** The record of an opening symbol. */
  lemma HeaderNoted(out: seq<Nlist>, more: seq<Nlist>, includes: map<bytes, seq<nat>>, includes': map<bytes, seq<nat>>,
                    origins: map<nat, Origin>, r: Nlist, head: Head)
    requires HeadersOk(out, includes, origins) && more == out + [r] && r.name == head.name
    requires r.value == Rem(head.total, TWO32)
    requires r.kind == if Noted(includes, head) then N_EXCL else N_BINCL
    requires forall h :: Noted(includes', h) <==> Noted(includes, h) || h == head
    ensures HeadersOk(more, includes', origins[|out| := Headed(head)])
  {
    hide Rem, Noted, HeadOk;
    var n, origins' := |out|, origins[|out| := Headed(head)];
    HeadAdded(out, more, includes, origins, r, head);
    forall k | k in origins' && origins'[k].Headed?
      ensures HeadOk(more, origins', k, origins'[k].head) && Noted(includes', origins'[k].head)
    {
      if k != n { HeadGrows(out, more, origins, origins', k, origins[k].head); }
    }
    forall h | Noted(includes', h)
      ensures OpenedBefore(more, origins', h, |more|)
    {
      if Noted(includes, h) {
        OpenedGrows(out, more, origins, origins', h, n, n + 1);
      } else {
        assert more[n].kind == N_BINCL && HeadedBy(origins', n, h);
      }
    }
  }

  lemma HeadAdded(out: seq<Nlist>, more: seq<Nlist>, includes: map<bytes, seq<nat>>, origins: map<nat, Origin>,
                  r: Nlist, head: Head)
    requires HeadersOk(out, includes, origins) && more == out + [r] && r.name == head.name
    requires r.value == Rem(head.total, TWO32)
    requires r.kind == if Noted(includes, head) then N_EXCL else N_BINCL
    ensures HeadOk(more, origins[|out| := Headed(head)], |out|, head)
  {
    hide Rem, Noted;
    var n, origins' := |out|, origins[|out| := Headed(head)];
    if Noted(includes, head) {
      OpenedGrows(out, more, origins, origins', head, n, n);
    } else {
      forall j | 0 <= j < n
        ensures !HeadedBy(origins', j, head)
      {
      }
    }
  }

  /** Record `k` refers to a header that a record in front of it opens. */
  ghost predicate RefersBack(out: seq<Nlist>, k: nat) {
    && k < |out| && out[k].kind == N_EXCL
    && exists j :: 0 <= j < k && out[j].kind == N_BINCL && out[j].name == out[k].name && out[j].value == out[k].value
  }

  lemma ReferenceFound(out: seq<Nlist>, includes: map<bytes, seq<nat>>, origins: map<nat, Origin>, k: nat)
    requires HeadersOk(out, includes, origins) && k < |out| && out[k].kind == N_EXCL
    ensures k in origins && (origins[k].Given? || RefersBack(out, k))
  {
    hide Rem, Noted;
    if origins[k].Headed? {
      var head := origins[k].head;
      var j :| 0 <= j < k && j < |out| && out[j].kind == N_BINCL && HeadedBy(origins, j, head);
      assert HeadOk(out, origins, j, head);
    }
  }

  /** The record of a symbol from no input file is neither a bracket nor a reference. */
  lemma OtherGrows(out: seq<Nlist>, more: seq<Nlist>, includes: map<bytes, seq<nat>>, origins: map<nat, Origin>,
                   h: Entry)
    requires more == out || (OtherRecord(h).Some? && more == out + [OtherRecord(h).value])
    requires HeadersOk(out, includes, origins)
    ensures HeadersOk(more, includes, origins) && (Balanced(out) ==> Balanced(more))
  {
    hide HeadersOk;
    HeadersGrow(out, more, includes, origins, origins);
    if Balanced(out) && more != out { DepthNext(out, OtherRecord(h).value); }
  }

  /** A record carries the name of its entry; that of a warning may carry the text. */
  predicate Suits(r: Nlist, h: Entry) {
    !h.kind.Warning? ==> r.name == h.name
  }

  /** All records in order, the entries that they were emitted for, and the origins of those that are
      about headers. */
  datatype Log = Log(out: seq<Nlist>, owner: seq<Entry?>, origins: map<nat, Origin>)

  ghost predicate Grows(a: Log, b: Log) {
    && |a.out| == |a.owner| && |b.out| == |b.owner| && a.out <= b.out && a.owner <= b.owner
    && Extends(a.origins, b.origins)
  }

  // ---------------------------------------------------------------------------------------
  // The output file
  // ---------------------------------------------------------------------------------------

  /** `struct aout_final_link_info` and the symbols of the output file. */
  class Output {
    const strip: Strip
    const keep: set<bytes>
    const discard: Discard
    const keepMemory: bool
    /** `bfd_is_local_label_name` */
    const localLabel: bytes -> bool
    const symFilepos: nat
    /** Where the next record goes. */
    var symoff: nat
    /** How many records there are, those still in `outputSyms` included. */
    var count: nat
    var outputSyms: seq<Nlist>
    /** The symbol table on disk: a record for each position that one was written to. */
    var file: map<nat, Nlist>
    /** For each header name the checksums seen. */
    var includes: map<bytes, seq<nat>>

    ghost const table: set<Entry>
    /** All records in order, and the entry that each was emitted for. */
    ghost var out: seq<Nlist>
    ghost var owner: seq<Entry?>
    /** The records about headers, other than closing ones, and where they come from. */
    ghost var origins: map<nat, Origin>

    constructor (strip: Strip, keep: set<bytes>, discard: Discard, keepMemory: bool,
                 localLabel: bytes -> bool, symFilepos: nat, ghost table: set<Entry>)
      requires LinksOk(table) && forall h <- table :: !h.written && h.indx == -1
      ensures Ready() && out == [] && origins == map[] && this.table == table
      ensures this.strip == strip && this.keep == keep && this.discard == discard && this.symFilepos == symFilepos
    {
      this.strip, this.keep, this.discard := strip, keep, discard;
      this.keepMemory, this.localLabel := keepMemory, localLabel;
      this.symFilepos, symoff, count, outputSyms, file := symFilepos, symFilepos, 0, [], map[];
      includes, this.table, out, owner, origins := map[], table, [], [], map[];
    }

    /** An entry that has an index has been written, and the record with that index is its own. */
    ghost predicate Emitted(h: Entry)
      reads this`owner, h
    {
      h.indx >= -2 && (h.indx >= 0 ==> h.written && h.indx < |owner| && owner[h.indx] == h)
    }

    /** The records and the entries agree: no entry has two records. */
    ghost predicate Valid()
      reads this`out, this`owner, this`count, this`outputSyms, this`symoff, this`file, table
    {
      && |out| == |owner| == count
      && LinksOk(table) && (forall h <- table :: Emitted(h))
      && (forall k :: 0 <= k < |owner| && owner[k] != null ==> owner[k] in table && owner[k].indx == k)
      && (forall k :: 0 <= k < |owner| && owner[k] != null ==> Suits(out[k], owner[k]))
      && Placed()
    }

    /** Record `k` is at `symFilepos + 12 * k`; the last ones are still in memory. */
    ghost predicate Placed()
      reads this`out, this`count, this`outputSyms, this`symoff, this`file
    {
      && |out| == count && |outputSyms| <= count
      && var n := count - |outputSyms|;
         && symoff == symFilepos + EXTERNAL_NLIST_SIZE * n && out[n..] == outputSyms
         && forall k :: 0 <= k < n ==> OnDisk(k)
    }

    ghost predicate OnDisk(k: nat)
      requires k < |out|
      reads this`out, this`file
    {
      var pos := symFilepos + EXTERNAL_NLIST_SIZE * k;
      pos in file && file[pos] == out[k]
    }

    ghost predicate Flushed()
      reads this`outputSyms
    {
      outputSyms == []
    }

    ghost predicate Headers()
      reads this`out, this`includes, this`origins
    {
      HeadersOk(out, includes, origins)
    }

    ghost function Now(): Log
      reads this`out, this`owner, this`origins
    {
      Log(out, owner, origins)
    }

    /** Only an entry without a record of its own is left with an order to write it, and when nothing is
        stripped, what has been written has a record if it can have one. */
    ghost predicate Settled(h: Entry)
      reads h
    {
      && (h.indx == -2 ==> OtherRecord(h).None?)
      && (strip == StripNone && h.written && OtherRecord(h).Some? ==> h.indx >= 0)
    }

    ghost predicate Complete()
      reads table
    {
      forall h <- table :: Settled(h)
    }

    /** Nothing is in memory, and everything is in order. */
    ghost predicate Ready()
      reads this, table
    {
      Valid() && Flushed() && Headers() && Complete()
    }

    /** A record written at once: its entry gets its index. */
    method PutRecord(record: Nlist, h: Entry)
      requires Valid() && Flushed() && h in table && h.indx < 0 && h.written && Suits(record, h)
      modifies this`symoff, this`count, this`file, this`out, this`owner, h`indx
      ensures Valid() && Flushed() && h.indx == old(count)
      ensures out == old(out) + [record] && owner == old(owner) + [h]
    {
      file := file[symoff := record];
      symoff := symoff + EXTERNAL_NLIST_SIZE;
      h.indx := count;
      count := count + 1;
      out, owner := out + [record], owner + [h];
      forall k | 0 <= k < count
        ensures OnDisk(k)
      {
        if k < old(count) { assert old(OnDisk(k)); }
      }
      forall g <- table
        ensures Emitted(g)
      {
        assert old(Emitted(g));
      }
    }

    /** Whether a symbol from no input file is stripped. */
    predicate StrippedOther(name: bytes) {
      strip == StripAll || (strip == StripSome && name !in keep)
    }

    /** `aout_link_write_other_symbol` for an entry that does not stand for another one. */
    method WriteOther(h: Entry)
      requires Valid() && Flushed() && h in table && !h.kind.Warning?
      modifies this`symoff, this`count, this`file, this`out, this`owner, h`written, h`indx
      ensures Valid() && Flushed() && h.written
      ensures old(h.written) || (old(h.indx) != -2 && StrippedOther(h.name)) || OtherRecord(h).None? ==>
                out == old(out) && owner == old(owner) && h.indx == old(h.indx)
      ensures !old(h.written) && (old(h.indx) == -2 || !StrippedOther(h.name)) && OtherRecord(h).Some? ==>
                out == old(out) + [OtherRecord(h).value] && owner == old(owner) + [h] && h.indx == |old(out)|
      ensures old(Settled(h)) || !old(h.written) ==> Settled(h)
    {
      assert Emitted(h);
      if h.written {
        return;
      }
      h.written := true;
      if h.indx != -2 && StrippedOther(h.name) {
        return;
      }
      var record := OtherRecord(h);
      if record.None? {
        return;
      }
      PutRecord(record.value, h);
    }

    /** The entry that an entry is written for. */
    function Meant(h: Entry): Entry {
      if h.kind.Warning? then h.kind.link else h
    }

    /** `aout_link_write_other_symbol` */
    method WriteOtherSymbol(h: Entry)
      requires Valid() && Flushed() && Headers() && h in table && (forall g <- table :: g != h ==> Settled(g))
      requires Settled(h) || !h.written
      modifies this`symoff, this`count, this`file, this`out, this`owner, Meant(h)`written, Meant(h)`indx
      ensures Ready() && (Meant(h).written || (Meant(h).kind.New? && !old(Meant(h).written)))
      ensures Balanced(old(out)) ==> Balanced(out)
      ensures (out == old(out) && owner == old(owner) && Meant(h).indx == old(Meant(h).indx))
              || (OtherRecord(Meant(h)).Some? && Meant(h).indx == |old(out)| && old(Meant(h).indx) < 0
                  && out == old(out) + [OtherRecord(Meant(h)).value] && owner == old(owner) + [Meant(h)])
      ensures !old(Meant(h).written) && OtherRecord(Meant(h)).Some? && (strip == StripNone || old(Meant(h).indx) == -2)
              ==> Meant(h).indx >= 0
    {
      hide Suits;
      var target := h;
      if h.kind.Warning? {
        assert LinkOk(table, h);
        target := h.kind.link;
        if target.kind.New? {
          return;
        }
      }
      assert LinkOk(table, target) && Emitted(target);
      WriteOther(target);
      OtherGrows(old(out), out, includes, origins, target);
    }

    /** A record put behind those in memory; its entry, if there is one, gets its index. */
    method Append(record: Nlist, h: Entry?)
      requires Valid() && (h != null ==> h in table && !h.written && Suits(record, h))
      modifies this`count, this`outputSyms, this`out, this`owner
      modifies (if h == null then {} else {h})`written, (if h == null then {} else {h})`indx
      ensures Valid() && out == old(out) + [record] && owner == old(owner) + [h]
      ensures h != null ==> h.written && h.indx == old(count)
    {
      if h != null {
        assert Emitted(h);
        h.written := true;
        h.indx := count;
      }
      outputSyms := outputSyms + [record];
      count := count + 1;
      out, owner := out + [record], owner + [h];
      forall k | 0 <= k < count - |outputSyms|
        ensures OnDisk(k)
      {
        assert old(OnDisk(k));
      }
      forall g <- table
        ensures Emitted(g)
      {
        assert old(Emitted(g));
      }
    }

    /** An opening symbol: it is kept and its header noted if the header is new, and else becomes a
        reference to the header that was kept before. */
    method CopyHeader(s: Nlist, total: nat) returns (seen: bool)
      requires Valid() && Headers() && Opens(s)
      modifies this`count, this`outputSyms, this`out, this`owner, this`includes, this`origins
      ensures Valid() && Headers()
      ensures out == old(out) + [s.(kind := if seen then N_EXCL else N_BINCL, value := Rem(total, TWO32))]
      ensures seen <==> Noted(old(includes), Head(s.name, total))
      ensures forall head :: Noted(includes, head) <==> Noted(old(includes), head) || head == Head(s.name, total)
      ensures owner == old(owner) + [null] && origins == old(origins)[|old(out)| := Headed(Head(s.name, total))]
    {
      hide Rem, HeadersOk;
      var totals := if s.name in includes then includes[s.name] else [];
      seen := total in totals;
      var record := s.(kind := if seen then N_EXCL else N_BINCL, value := Rem(total, TWO32));
      if !seen { includes := includes[s.name := [total] + totals]; }
      origins := origins[count := Headed(Head(s.name, total))];
      Append(record, null);
      HeaderNoted(old(out), out, old(includes), includes, old(origins), record, Head(s.name, total));
    }

    // -------------------------------------------------------------------------------------
    // The symbols of an input file
    // -------------------------------------------------------------------------------------

    /** Debugging symbols have no entries. */
    ghost predicate InputOk(input: Input) {
      |input.hashes| == |input.syms| &&
      forall i :: 0 <= i < |input.syms| && input.hashes[i] != null ==>
        input.hashes[i] in table && !IsStab(input.syms[i].kind)
    }

    /** The entry behind all indirections. */
    method Resolve(h: Entry) returns (r: Entry)
      requires h in table && LinksOk(table)
      ensures r == Base(table, h) && r in table && !Refers(r.kind)
    {
      r := h;
      while Refers(r.kind)
        invariant r in table && Base(table, r) == Base(table, h)
        decreases r.rank
      {
        assert LinkOk(table, r);
        r := r.kind.link;
      }
    }

    predicate Stripped(kind: nat, name: bytes) {
      match strip
      case StripNone => false
      case StripDebugger => IsStab(kind)
      case StripSome => name !in keep
      case StripAll => true
    }

    /** Whether a symbol without an entry is discarded. */
    predicate Discarded(kind: nat, name: bytes) {
      SetSection(kind).None? &&
      match discard
      case DiscardNone => false
      case DiscardL => !IsStab(kind) && localLabel(name)
      case DiscardAll => true
    }

    /** Debugging symbols are copied. */
    predicate Keeping() {
      strip == StripNone && discard != DiscardAll
    }

    /** The name that a symbol goes by: that of its entry, but the text of a warning. */
    function NameOf(s: Nlist, h: Entry?): bytes {
      if h != null && !h.kind.Warning? then h.name else s.name
    }

    /** The record of a symbol of an input file. */
    function RecordOf(s: Nlist, h: Entry?, o: Outcome): Nlist {
      Nlist(if !keepMemory && h != null then h.name else NameOf(s, h), o.kind, s.other, s.desc, Rem(o.value, TWO32))
    }

    // What becomes of the symbols of an input file

    /** What a symbol without an entry is copied as. */
    ghost predicate CopyOf(input: Input, i: nat, r: Nlist)
      requires i < |input.syms|
    {
      var s := input.syms[i];
      || r == PassedOn(s)
      || r == RecordOf(s, null, Translate(input, s, null))
      || (Opens(s) && (r == HeaderRecord(input.syms, i, false) || r == HeaderRecord(input.syms, i, true)))
    }

    /** Such a symbol is stripped or discarded. */
    predicate Dropped(input: Input, i: nat)
      requires i < |input.syms|
    {
      var s := input.syms[i];
      Stripped(s.kind, s.name) || Discarded(Translate(input, s, null).kind, s.name)
    }

    /** Record `index` is that of symbol `i`: a copy of it, or the record of its entry, or the symbol as it
        was if it stands behind one that redirects. */
    ghost predicate RecordFor(log: Log, input: Input, i: nat, index: nat)
      requires i < |input.syms| == |input.hashes| && index < |log.out| == |log.owner|
    {
      var h := input.hashes[i];
      if h == null then log.owner[index] == null && CopyOf(input, i, log.out[index])
      else || log.owner[index] == h
           || (log.owner[index] == null && log.out[index] == PassedOn(input.syms[i]) && Behind(log.out, input.syms, i))
    }

    /** What the entry of the symbol map says. */
    ghost predicate Mapped(log: Log, input: Input, i: nat, index: int)
      requires i < |input.syms| == |input.hashes|
    {
      && |log.out| == |log.owner|
      && (index >= 0 ==> index < |log.out| && RecordFor(log, input, i, index))
      && (index < -1 ==> index == -2 && input.hashes[i] != null && OtherRecord(input.hashes[i]).None?)
    }

    /** Why a symbol is not in the output: it belongs to a header that is left out, stands behind a symbol
        that redirects, is stripped or discarded, or its entry has nothing to write. */
    ghost predicate Accounted(log: Log, input: Input, i: nat, index: int)
      requires i < |input.syms| == |input.hashes|
    {
      index < 0 ==>
        || LeftOut(log.out, input.syms, i) || Behind(log.out, input.syms, i)
        || (if input.hashes[i] == null then Dropped(input, i)
            else strip != StripNone || OtherRecord(input.hashes[i]).None?)
    }

    /** The entry that relocations against symbol `i` use: the one behind all indirections, unless the
        symbol was not looked at. */
    ghost predicate Resolved(log: Log, input: Input, i: nat, h: Entry?)
      requires i < |input.syms| && InputOk(input) && LinksOk(table)
    {
      var g := input.hashes[i];
      if g == null then h == null
      else h == Base(table, g) || (h == g && (LeftOut(log.out, input.syms, i) || Behind(log.out, input.syms, i)))
    }

    /** Symbols without entries have records of their own, in the order of the input file. */
    ghost predicate InOrder(input: Input, symbolMap: seq<int>, n: nat, first: nat)
      requires n <= |symbolMap| == |input.hashes|
    {
      && (forall k :: 0 <= k < n && input.hashes[k] == null && symbolMap[k] >= 0 ==> first <= symbolMap[k])
      && (forall j, k :: 0 <= j < k < n && input.hashes[j] == null && input.hashes[k] == null && symbolMap[k] >= 0 ==>
            symbolMap[j] < symbolMap[k])
    }

    /** The record of an opening symbol was made for its header, unless the symbol was not looked at. */
    ghost predicate HeaderKnown(log: Log, input: Input, i: nat, index: int)
      requires i < |input.syms|
    {
      Opens(input.syms[i]) && index >= 0 && !Behind(log.out, input.syms, i)
      ==> HeadedBy(log.origins, index, HeadOf(input.syms, i))
    }

    /** What was found of one symbol. */
    ghost predicate Found(log: Log, input: Input, i: nat, index: int, h: Entry?)
      requires i < |input.syms| && InputOk(input) && LinksOk(table)
    {
      && Mapped(log, input, i, index) && Accounted(log, input, i, index) && Resolved(log, input, i, h)
      && HeaderKnown(log, input, i, index)
    }

    /** The first `i` symbols have been dealt with; what is known of the others. */
    ghost predicate Covered(log: Log, input: Input, i: nat, part: Part, waiting: bool) {
      && InputOk(input) && LinksOk(table) && i <= |input.syms| == |part.symbolMap| == |part.symHashes|
      && (forall k :: 0 <= k < i ==> Found(log, input, k, part.symbolMap[k], part.symHashes[k]))
      && (forall k :: i <= k < |input.syms| ==> part.symHashes[k] == input.hashes[k])
      && (forall k :: i <= k < |input.syms| && part.symbolMap[k] == -1 ==> LeftOut(log.out, input.syms, k))
      && (waiting ==> Behind(log.out, input.syms, i))
      && InOrder(input, part.symbolMap, i, part.first)
    }

    /** All symbols of an input file are accounted for, and the file itself has its record. */
    ghost predicate Present(log: Log, input: Input, part: Part) {
      && Covered(log, input, |input.syms|, part, false)
      && (NamesFile(input) ==> 0 < part.first <= |log.out| && log.out[part.first - 1] == FileRecord(input))
    }

    predicate NamesFile(input: Input) {
      strip != StripAll && (strip != StripSome || input.filename in keep) && discard != DiscardAll
    }

    function FileRecord(input: Input): Nlist {
      Nlist(input.filename, N_TEXT, 0, 0, Rem(input.address, TWO32))
    }

    /** What became of symbol `i`. */
    ghost predicate SymbolDone(input: Input, i: nat, pass0: bool, skip0: bool, before: Log, after: Log, left: bool,
                               index: int)
      requires i < |input.syms| == |input.hashes|
    {
      && Grows(before, after) && -2 <= index < |after.out|
      && (left ==> Opens(input.syms[i]) && after.out == before.out + [HeaderRecord(input.syms, i, true)])
      && (index < -1 ==> input.hashes[i] != null && OtherRecord(input.hashes[i]).None?)
      && (index < 0 ==> skip0 || (if input.hashes[i] == null then Dropped(input, i)
                                  else strip != StripNone || OtherRecord(input.hashes[i]).None?))
      && (index >= 0 && input.hashes[i] == null ==>
            index == |before.out| && after.owner[index] == null && CopyOf(input, i, after.out[index]))
      && (index >= 0 && input.hashes[i] != null ==>
            || after.owner[index] == input.hashes[i]
            || (pass0 && after.owner[index] == null && after.out[index] == PassedOn(input.syms[i])))
      && (forall k :: k in after.origins && k !in before.origins ==>
            k == index && FitsOrigin(input.syms, i, after.origins[k]))
      && (index >= 0 && Opens(input.syms[i]) && !pass0 ==> HeadedBy(after.origins, index, HeadOf(input.syms, i)))
    }

    lemma FoundGrows(log: Log, more: Log, input: Input, i: nat, index: int, h: Entry?)
      requires i < |input.syms| && InputOk(input) && LinksOk(table) && Grows(log, more)
      requires Found(log, input, i, index, h)
      ensures Found(more, input, i, index, h)
    {
      hide CopyOf, Dropped, LeftOut, Behind, OtherRecord, Base, HeadOf;
      if LeftOut(log.out, input.syms, i) { LeftOutGrows(log.out, more.out, input.syms, i); }
      if Behind(log.out, input.syms, i) { BehindGrows(log.out, more.out, input.syms, i); }
    }

    lemma PresentGrows(log: Log, more: Log, input: Input, part: Part)
      requires Present(log, input, part) && Grows(log, more)
      ensures Present(more, input, part)
    {
      hide Found, FileRecord, InOrder, InputOk;
      forall k | 0 <= k < |input.syms|
        ensures Found(more, input, k, part.symbolMap[k], part.symHashes[k])
      {
        FoundGrows(log, more, input, k, part.symbolMap[k], part.symHashes[k]);
      }
    }

    lemma CoveredStart(log: Log, input: Input, part: Part)
      requires InputOk(input) && LinksOk(table) && |input.syms| == |part.symbolMap| && part.symHashes == input.hashes
      requires forall k :: 0 <= k < |part.symbolMap| ==> part.symbolMap[k] == 0
      ensures Covered(log, input, 0, part, false)
    {
    }

    /** A symbol that is left out with its header. */
    lemma CoveredMarked(log: Log, input: Input, i: nat, part: Part, waiting: bool)
      requires Covered(log, input, i, part, waiting) && i < |input.syms| && part.symbolMap[i] == -1
      requires |log.out| == |log.owner|
      ensures Covered(log, input, i + 1, part, waiting)
    {
      hide LeftOut, CopyOf, Dropped, Behind, Base, RecordFor, HeadOf;
      if waiting { BehindNext(log.out, input.syms, i); }
    }

    /** The entry of the map and of the hashes that symbol `i` gets, and the marks of its header. */
    ghost function Updated(input: Input, i: nat, part: Part, left: bool, v: int, h: Entry?): (r: Part)
      requires i < |input.syms| == |part.symbolMap| == |part.symHashes|
      ensures |r.symbolMap| == |part.symbolMap| && |r.symHashes| == |part.symHashes|
    {
      Part((if left then Marked(input.syms, i + 1, 0, part.symbolMap) else part.symbolMap)[i := v],
           part.symHashes[i := h], part.first)
    }

    /** Behind symbol `i` the map has new marks only; in front of it nothing changes. */
    lemma UpdatedAt(input: Input, i: nat, part: Part, left: bool, v: int, h: Entry?, k: nat)
      requires i < |input.syms| == |part.symbolMap| == |part.symHashes| && k < |input.syms|
      ensures var m := Updated(input, i, part, left, v, h).symbolMap[k];
              if k < i then m == part.symbolMap[k]
              else if k == i then m == v
              else m == if left && InHeader(input.syms, i + 1, 0, k) then -1 else part.symbolMap[k]
    {
      hide Marked, InHeader;
      if left { MarkedAt(input.syms, i + 1, 0, part.symbolMap, k); }
      if k <= i { NotAhead(input.syms, i + 1, 0, k); }
    }

    /** A symbol that is looked at. */
    lemma CoveredCopied(log: Log, more: Log, input: Input, i: nat, part: Part, waiting: bool,
                        pass0: bool, skip0: bool, left: bool, v: int, h: Entry?, waiting': bool)
      requires Covered(log, input, i, part, waiting) && i < |input.syms|
      requires SymbolDone(input, i, pass0, skip0, log, more, left, v)
      requires (pass0 || skip0 ==> waiting) && (waiting' ==> Redirects(input.syms[i].kind))
      requires h == HashAfter(input, i, pass0 || skip0) && part.first <= |log.out|
      ensures Covered(more, input, i + 1, Updated(input, i, part, left, v, h), waiting')
    {
      hide CopyOf, Dropped, LeftOut, Behind, Redirects, HeaderRecord, Found, Updated, SymbolDone, Base, HashAfter;
      hide InOrder;
      var r := Updated(input, i, part, left, v, h);
      SymbolGrew(input, i, pass0, skip0, log, more, left, v);
      UpdatedHash(input, i, part, left, v, h, i);
      forall k | 0 <= k < i + 1
        ensures Found(more, input, k, r.symbolMap[k], r.symHashes[k])
      {
        UpdatedAt(input, i, part, left, v, h, k);
        UpdatedHash(input, i, part, left, v, h, k);
        if k < i {
          FoundGrows(log, more, input, k, part.symbolMap[k], part.symHashes[k]);
        } else {
          if pass0 || skip0 { BehindGrows(log.out, more.out, input.syms, i); }
          FoundNow(log, more, input, i, pass0, skip0, left, v, h);
        }
      }
      forall k | i + 1 <= k < |input.syms|
        ensures r.symHashes[k] == input.hashes[k] && (r.symbolMap[k] == -1 ==> LeftOut(more.out, input.syms, k))
      {
        UpdatedAt(input, i, part, left, v, h, k);
        UpdatedHash(input, i, part, left, v, h, k);
        MarksJustified(log, more, input, i, part, pass0, skip0, left, v, k);
      }
      if waiting' { DirectlyBehind(more.out, input.syms, i); }
      StillInOrder(log, more, input, i, part, pass0, skip0, left, v, h);
    }

    lemma UpdatedHash(input: Input, i: nat, part: Part, left: bool, v: int, h: Entry?, k: nat)
      requires i < |input.syms| == |part.symbolMap| == |part.symHashes| && k < |input.syms|
      ensures Updated(input, i, part, left, v, h).symHashes[k] == if k == i then h else part.symHashes[k]
      ensures Updated(input, i, part, left, v, h).first == part.first
    {
      hide Marked;
    }

    lemma SymbolGrew(input: Input, i: nat, pass0: bool, skip0: bool, log: Log, more: Log, left: bool, v: int)
      requires i < |input.syms| == |input.hashes| && SymbolDone(input, i, pass0, skip0, log, more, left, v)
      ensures Grows(log, more) && -2 <= v < |more.out|
    {
      hide CopyOf, Dropped, HeaderRecord, OtherRecord;
    }

    lemma FoundNow(log: Log, more: Log, input: Input, i: nat, pass0: bool, skip0: bool, left: bool, v: int, h: Entry?)
      requires InputOk(input) && LinksOk(table) && i < |input.syms|
      requires SymbolDone(input, i, pass0, skip0, log, more, left, v)
      requires (pass0 || skip0 ==> Behind(more.out, input.syms, i)) && h == HashAfter(input, i, pass0 || skip0)
      ensures Found(more, input, i, v, h)
    {
      hide CopyOf, Dropped, LeftOut, Behind, HeaderRecord, OtherRecord, Base, HeadOf, FitsOrigin;
    }

    lemma MarksJustified(log: Log, more: Log, input: Input, i: nat, part: Part, pass0: bool, skip0: bool, left: bool,
                         v: int, k: nat)
      requires i < k < |input.syms| == |input.hashes| == |part.symbolMap|
      requires SymbolDone(input, i, pass0, skip0, log, more, left, v)
      requires part.symbolMap[k] == -1 ==> LeftOut(log.out, input.syms, k)
      ensures (left && InHeader(input.syms, i + 1, 0, k)) || part.symbolMap[k] == -1 ==>
                LeftOut(more.out, input.syms, k)
    {
      hide CopyOf, Dropped, LeftOut, HeaderRecord, OtherRecord, InHeader;
      if left && InHeader(input.syms, i + 1, 0, k) {
        JustLeftOut(log.out, input.syms, i, k);
      } else if part.symbolMap[k] == -1 {
        LeftOutGrows(log.out, more.out, input.syms, k);
      }
    }

    lemma StillInOrder(log: Log, more: Log, input: Input, i: nat, part: Part, pass0: bool, skip0: bool, left: bool,
                       v: int, h: Entry?)
      requires Covered(log, input, i, part, true) || Covered(log, input, i, part, false)
      requires i < |input.syms| && SymbolDone(input, i, pass0, skip0, log, more, left, v) && part.first <= |log.out|
      ensures InOrder(input, Updated(input, i, part, left, v, h).symbolMap, i + 1, part.first)
    {
      hide CopyOf, Dropped, LeftOut, Behind, HeaderRecord, OtherRecord, Updated, RecordFor, Resolved, Accounted;
      forall k | 0 <= k < i + 1
        ensures Updated(input, i, part, left, v, h).symbolMap[k] == if k < i then part.symbolMap[k] else v
        ensures k < i && part.symbolMap[k] >= 0 ==> part.symbolMap[k] < |log.out|
      {
        UpdatedAt(input, i, part, left, v, h, k);
        if k < i { assert Found(log, input, k, part.symbolMap[k], part.symHashes[k]); }
      }
    }

    /** The entry that is left for symbol `i` in the list of entries. */
    ghost function HashAfter(input: Input, i: nat, unseen: bool): Entry?
      requires i < |input.syms| && InputOk(input) && LinksOk(table)
    {
      var g := input.hashes[i];
      if unseen || g == null then g else Base(table, g)
    }

    /** What is to be done with symbol `i`, and what becomes of the symbol behind it. */
    ghost function Decision(input: Input, i: nat, pass0: bool, skip0: bool): (Action, bool, bool)
      requires InputOk(input) && i < |input.syms| && LinksOk(table)
      reads table
    {
      var s, h := input.syms[i], input.hashes[i];
      if pass0 then (Copy(PassedOn(s), null), false, false)
      else if skip0 then (Skip, false, false)
      else if h != null && h.written then (Reuse(h.indx), false, Redirects(s.kind))
      else if Stripped(s.kind, NameOf(s, h)) then (Skip, false, false)
      else
        var o := Translate(input, s, if h == null then null else Base(table, h));
        if h == null && Discarded(o.kind, NameOf(s, h)) then (Skip, false, o.skipNext)
        else (if o.kind == N_BINCL then Header else Copy(RecordOf(s, h, o), h), o.pass, o.skipNext)
    }

    /** What is to be done with a symbol. */
    ghost predicate Fits(s: Nlist, a: Action, pass: bool, skipNext: bool)
      reads this`owner, table
    {
      && !(pass && skipNext) && (pass || skipNext ==> Redirects(s.kind))
      && (a.Header? ==> Opens(s) && (Keeping() || strip == StripSome))
      && (a.Reuse? ==> Plain(s) && -2 <= a.index < |owner|)
      && (a.Copy? && a.h != null ==> a.h in table && !a.h.written && Suits(a.record, a.h))
      && (a.Copy? && a.record.kind == N_EXCL ==> s.kind == N_EXCL)
    }

    /** A symbol without an entry is copied, starts a header, or is not wanted; one with an entry becomes
        the record of its entry, or leads to the record that there is. */
    ghost predicate SymbolFits(owner: seq<Entry?>, input: Input, i: nat, a: Action, pass0: bool, skip0: bool)
      requires i < |input.syms| == |input.hashes|
    {
      var h := input.hashes[i];
      match a
      case Skip => skip0 || (if h == null then Dropped(input, i) else strip != StripNone)
      case Reuse(k) =>
        && h != null
        && (if k >= 0 then k < |owner| && owner[k] == h else strip != StripNone || OtherRecord(h).None?)
        && (k < -1 ==> OtherRecord(h).None?)
      case Copy(record, g) => if pass0 then g == null && record == PassedOn(input.syms[i])
                              else g == h && !Opens(input.syms[i]) && (h == null ==> CopyOf(input, i, record))
      case Header => Opens(input.syms[i]) && h == null
    }

    lemma SymbolFollows(input: Input, i: nat, a: Action, pass0: bool, skip0: bool, before: Log, after: Log, left: bool,
                        index: int)
      requires i < |input.syms| == |input.hashes| && SymbolFits(before.owner, input, i, a, pass0, skip0)
      requires Done(a, input.syms, i, before, after, left, index) && |before.out| == |before.owner|
      requires a.Reuse? ==> -2 <= a.index && Plain(input.syms[i])
      requires a.Copy? && a.record.kind == N_EXCL ==> input.syms[i].kind == N_EXCL
      requires forall k <- before.origins :: k < |before.out|
      ensures SymbolDone(input, i, pass0, skip0, before, after, left, index)
    {
      hide Dropped, HeaderRecord, OtherRecord, Rem, Translate, HeadOf;
    }

    /** Brackets are copied as brackets, or not at all. */
    ghost predicate BracketsFit(s: Nlist, a: Action) {
      && (a.Copy? && Plain(s) ==> Plain(a.record))
      && (a.Copy? && !Plain(s) ==> Closes(s) && a.record.kind == s.kind && (Keeping() || strip == StripSome))
      && (a.Skip? && Keeping() ==> Plain(s))
    }

    lemma BracketsFollow(syms: seq<Nlist>, i: nat, a: Action, before: Log, after: Log, left: bool, index: int)
      requires i < |syms| && BracketsFit(syms[i], a) && Done(a, syms, i, before, after, left, index)
      requires (a.Header? ==> Opens(syms[i]) && (Keeping() || strip == StripSome)) && (a.Reuse? ==> Plain(syms[i]))
      ensures Adds(syms[i], before.out, after.out, left, Keeping(), strip == StripSome)
    {
      hide Rem, HeaderSum;
    }

    /** The part of the loop that decides: by what came before, by the entry, by what is stripped and
        discarded.  Relocations are led to the entry behind all indirections. */
    method Examine(input: Input, i: nat, symHashes: array<Entry?>, pass0: bool, skip0: bool)
      returns (a: Action, pass: bool, skipNext: bool)
      requires Valid() && Complete() && InputOk(input) && i < |input.syms| == symHashes.Length && !(pass0 && skip0)
      requires symHashes[i] == input.hashes[i]
      modifies table`written, symHashes
      ensures Valid() && Complete() && Fits(input.syms[i], a, pass, skipNext)
      ensures symHashes[..] == old(symHashes[..])[i := HashAfter(input, i, pass0 || skip0)]
      ensures (a, pass, skipNext) == old(Decision(input, i, pass0, skip0))
      ensures SymbolFits(owner, input, i, a, pass0, skip0)
      ensures (pass0 || skip0 ==> Plain(input.syms[i])) ==> BracketsFit(input.syms[i], a)
      ensures forall g <- table :: old(g.written) ==> g.written
    {
      hide Rem, Translate, SymSection, Redirects, OtherRecord, Base;
      assert LinksOk(table);
      var s, h := input.syms[i], input.hashes[i];
      a, pass, skipNext := Skip, false, false;
      if pass0 {
        a := Copy(PassedOn(s), null);
        return;
      }
      if skip0 {
        return;
      }
      var resolved: Entry? := null;
      if h != null {
        assert Emitted(h) && Settled(h);
        resolved := Resolve(h);
        symHashes[i] := resolved;
      }
      if h != null && h.written {
        skipNext := Redirects(s.kind);
        a := Reuse(h.indx);
        return;
      }
      var name := NameOf(s, h);
      if Stripped(s.kind, name) {
        if h != null {
          h.written := true;
          assert forall g <- table :: old(Emitted(g)) ==> Emitted(g);
        }
        return;
      }
      var o := Translate(input, s, resolved);
      pass, skipNext := o.pass, o.skipNext;
      if h == null && Discarded(o.kind, name) {
        pass := false;
        return;
      }
      if o.kind == N_BINCL {
        a := Header;
      } else {
        a := Copy(RecordOf(s, h, o), h);
      }
    }

    /** An opening symbol: its header is looked up by name and checksum, and marked if it is known. */
    method StartHeader(syms: seq<Nlist>, i: nat, symbolMap: array<int>) returns (left: bool)
      requires Valid() && Headers() && i < |syms| == symbolMap.Length && Opens(syms[i])
      modifies this`count, this`outputSyms, this`out, this`owner, this`includes, this`origins, symbolMap
      ensures Valid() && Headers()
      ensures out == old(out) + [HeaderRecord(syms, i, left)] && owner == old(owner) + [null]
      ensures left <==> Noted(old(includes), HeadOf(syms, i))
      ensures origins == old(origins)[|old(out)| := Headed(HeadOf(syms, i))]
      ensures symbolMap[..] == if left then Marked(syms, i + 1, 0, old(symbolMap[..])) else old(symbolMap[..])
    {
      hide HeadersOk, Marked, Rem, HeaderSum;
      var total := ScanHeader(syms, i);
      left := CopyHeader(syms[i], total);
      if left { MarkHeader(syms, i, symbolMap); }
    }

    /** One turn of the loop in `aout_link_write_symbols`, for a symbol that is not left out with its
        header.  `left` says that it starts a header that is left out. */
    method CopySymbol(input: Input, i: nat, symbolMap: array<int>, symHashes: array<Entry?>, pass0: bool, skip0: bool)
      returns (pass: bool, skipNext: bool, left: bool)
      requires Valid() && Headers() && Complete() && InputOk(input) && !(pass0 && skip0)
      requires i < |input.syms| == symbolMap.Length == symHashes.Length && symHashes[i] == input.hashes[i]
      modifies this`count, this`outputSyms, this`out, this`owner, this`includes, this`origins, symbolMap, symHashes
      modifies table`written, table`indx
      ensures Valid() && Headers() && Complete()
      ensures Done(old(Decision(input, i, pass0, skip0)).0, input.syms, i, old(Now()), Now(), left, symbolMap[i])
      ensures SymbolDone(input, i, pass0, skip0, old(Now()), Now(), left, symbolMap[i])
      ensures (pass0 || skip0 ==> Plain(input.syms[i])) ==>
                Adds(input.syms[i], old(out), out, left, Keeping(), strip == StripSome)
      ensures var was := old(symbolMap[..]);
              symbolMap[..] == (if left then Marked(input.syms, i + 1, 0, was) else was)[i := symbolMap[i]]
      ensures symHashes[..] == old(symHashes[..])[i := HashAfter(input, i, pass0 || skip0)]
      ensures !(pass && skipNext) && (pass || skipNext ==> Redirects(input.syms[i].kind))
      ensures forall g <- table :: (old(g.indx) >= 0 ==> g.indx == old(g.indx)) && (old(g.written) ==> g.written)
    {
      hide HeadersOk, Marked, Adds, BracketsFit, Redirects, Complete, Done, Decision, SymbolFits, SymbolDone, HashAfter;
      var a;
      a, pass, skipNext := Examine(input, i, symHashes, pass0, skip0);
      left := Perform(input.syms, i, symbolMap, a, pass, skipNext);
      OriginsBelow(old(out), old(includes), old(origins));
      SymbolFollows(input, i, a, pass0, skip0, old(Now()), Now(), left, symbolMap[i]);
      if pass0 || skip0 ==> Plain(input.syms[i]) {
        BracketsFollow(input.syms, i, a, old(Now()), Now(), left, symbolMap[i]);
      }
    }

    /** What was decided is done. */
    method Perform(syms: seq<Nlist>, i: nat, symbolMap: array<int>, a: Action, ghost pass: bool, ghost skipNext: bool)
      returns (left: bool)
      requires Valid() && Headers() && Complete() && i < |syms| == symbolMap.Length && Fits(syms[i], a, pass, skipNext)
      modifies this`count, this`outputSyms, this`out, this`owner, this`includes, this`origins, symbolMap
      modifies table`written, table`indx
      ensures Valid() && Headers() && Complete()
      ensures Done(a, syms, i, old(Now()), Now(), left, symbolMap[i])
      ensures var was := old(symbolMap[..]);
              symbolMap[..] == (if left then Marked(syms, i + 1, 0, was) else was)[i := symbolMap[i]]
      ensures forall g <- table :: (old(g.indx) >= 0 ==> g.indx == old(g.indx)) && (old(g.written) ==> g.written)
    {
      hide HeadersOk, Marked, Redirects, Suits, HeaderRecord, Settled, Complete;
      left := false;
      var index := -1;
      match a {
        case Skip =>
        case Reuse(k) => index := k;
        case Copy(record, h) =>
          index := count;
          CopyRecord(record, h);
        case Header =>
          index := count;
          left := StartHeader(syms, i, symbolMap);
      }
      symbolMap[i] := index;
    }

    method CopyRecord(record: Nlist, h: Entry?)
      requires Valid() && Headers() && Complete() && (h != null ==> h in table && !h.written && Suits(record, h))
      modifies this`count, this`outputSyms, this`out, this`owner, this`origins
      modifies (if h == null then {} else {h})`written, (if h == null then {} else {h})`indx
      ensures Valid() && Headers() && Complete() && out == old(out) + [record] && owner == old(owner) + [h]
      ensures origins == if record.kind == N_EXCL then old(origins)[|old(out)| := Given] else old(origins)
      ensures h != null ==> old(h.indx) < 0 && h.written && h.indx == old(count)
    {
      hide HeadersOk, OtherRecord, Suits;
      assert h != null ==> Emitted(h);
      OriginsBelow(out, includes, origins);
      Append(record, h);
      if record.kind == N_EXCL { origins := origins[count - 1 := Given]; }
      HeadersGrow(old(out), out, includes, old(origins), origins);
      assert forall g <- table :: old(Settled(g)) ==> Settled(g);
    }

    /** `aout_link_write_symbols` */
    method WriteSymbols(input: Input) returns (symbolMap: array<int>, symHashes: array<Entry?>, ghost part: Part)
      requires Ready() && InputOk(input)
      modifies this`count, this`symoff, this`outputSyms, this`file, this`out, this`owner, this`includes, this`origins
      modifies table`written, table`indx
      ensures Ready() && Grows(old(Now()), Now())
      ensures fresh(symbolMap) && fresh(symHashes) && part == Part(symbolMap[..], symHashes[..], part.first)
      ensures Present(Now(), input, part) && |old(out)| <= part.first && (NamesFile(input) ==> |old(out)| < part.first)
      ensures TracedBy(old(origins), origins, input.syms, part.symbolMap)
      ensures Clean(input.syms) && strip != StripSome && Balanced(old(out)) ==> Balanced(out)
      ensures forall g <- table :: (old(g.indx) >= 0 ==> g.indx == old(g.indx)) && (old(g.written) ==> g.written)
    {
      hide Headers, Clean, Balanced, Complete, Covered, TracedBy, Valid, InOrder, FileRecord;
      SoFar();
      symbolMap := new int[|input.syms|](_ => 0);
      symHashes := new Entry?[|input.syms|](k requires 0 <= k < |input.hashes| => input.hashes[k]);
      assert symHashes[..] == input.hashes;
      FileSymbol(input);
      ghost var first := |out|;
      CopySymbols(input, symbolMap, symHashes);
      part := Part(symbolMap[..], symHashes[..], first);
      Flush();
    }

    /** The loop over the symbols. */
    method CopySymbols(input: Input, symbolMap: array<int>, symHashes: array<Entry?>)
      requires Valid() && Headers() && Complete() && InputOk(input) && symbolMap.Length == |input.syms|
      requires (forall k :: 0 <= k < symbolMap.Length ==> symbolMap[k] == 0) && symHashes[..] == input.hashes
      modifies this`count, this`outputSyms, this`out, this`owner, this`includes, this`origins, symbolMap, symHashes
      modifies table`written, table`indx
      ensures Valid() && Headers() && Complete() && Grows(old(Now()), Now())
      ensures Covered(Now(), input, |input.syms|, Part(symbolMap[..], symHashes[..], |old(out)|), false)
      ensures TracedBy(old(origins), origins, input.syms, symbolMap[..])
      ensures Clean(input.syms) && strip != StripSome && Balanced(old(out)) ==> Balanced(out)
      ensures forall g <- table :: (old(g.indx) >= 0 ==> g.indx == old(g.indx)) && (old(g.written) ==> g.written)
    {
      hide HeadersOk, Clean, Balanced, Tracks, Complete, Covered, Valid, TracedUpTo, InputOk;
      ghost var clean := Clean(input.syms) && strip != StripSome && Balanced(old(out));
      ghost var open: Open := [];
      ghost var first := |out|;
      SoFar();
      if clean { TracksStart(input.syms, symbolMap[..], out, Keeping()); }
      CoveredStart(Now(), input, Part(symbolMap[..], symHashes[..], first));
      NothingTraced(origins, input.syms, symbolMap[..]);
      var pass, skipNext := false, false;
      var i := 0;
      while i < |input.syms|
        invariant 0 <= i <= |input.syms| && Valid() && Headers() && Complete() && !(pass && skipNext)
        invariant Grows(old(Now()), Now())
        invariant clean ==> Tracks(input.syms, i, open, symbolMap[..], pass || skipNext, out, Keeping())
        invariant Covered(Now(), input, i, Part(symbolMap[..], symHashes[..], first), pass || skipNext)
        invariant TracedUpTo(old(origins), origins, input.syms, symbolMap[..], i)
        invariant forall g <- table :: (old(g.indx) >= 0 ==> g.indx == old(g.indx)) && (old(g.written) ==> g.written)
      {
        pass, skipNext, open := Turn(input, i, symbolMap, symHashes, pass, skipNext, clean, open, first, old(origins));
        i := i + 1;
      }
      if clean { TracksEnd(input.syms, open, symbolMap[..], pass || skipNext, out, Keeping()); }
      NoLongerWaits(Now(), input, Part(symbolMap[..], symHashes[..], first), pass || skipNext);
      AllTraced(old(origins), origins, input.syms, symbolMap[..]);
    }

    lemma SoFar()
      requires Valid()
      ensures |out| == |owner| == count && LinksOk(table)
    {
    }

    lemma NoLongerWaits(log: Log, input: Input, part: Part, waiting: bool)
      requires Covered(log, input, |input.syms|, part, waiting)
      ensures Covered(log, input, |input.syms|, part, false)
    {
      hide Found, InOrder, InputOk;
    }

    /** One turn of the loop, also over symbols that are left out with their headers. */
    method Turn(input: Input, i: nat, symbolMap: array<int>, symHashes: array<Entry?>, pass0: bool, skip0: bool,
                ghost clean: bool, ghost open0: Open, ghost first: nat, ghost origins0: map<nat, Origin>)
      returns (pass: bool, skipNext: bool, ghost open: Open)
      requires Valid() && Headers() && Complete() && InputOk(input) && !(pass0 && skip0) && first <= |out|
      requires i < |input.syms| == symbolMap.Length == symHashes.Length
      requires clean ==>
                 && Clean(input.syms) && strip != StripSome
                 && Tracks(input.syms, i, open0, symbolMap[..], pass0 || skip0, out, Keeping())
      requires Covered(Now(), input, i, Part(symbolMap[..], symHashes[..], first), pass0 || skip0)
      requires TracedUpTo(origins0, origins, input.syms, symbolMap[..], i)
      modifies this`count, this`outputSyms, this`out, this`owner, this`includes, this`origins, symbolMap, symHashes
      modifies table`written, table`indx
      ensures Valid() && Headers() && Complete() && Grows(old(Now()), Now()) && !(pass && skipNext)
      ensures clean ==> Tracks(input.syms, i + 1, open, symbolMap[..], pass || skipNext, out, Keeping())
      ensures Covered(Now(), input, i + 1, Part(symbolMap[..], symHashes[..], first), pass || skipNext)
      ensures TracedUpTo(origins0, origins, input.syms, symbolMap[..], i + 1)
      ensures forall g <- table :: (old(g.indx) >= 0 ==> g.indx == old(g.indx)) && (old(g.written) ==> g.written)
    {
      hide HeadersOk, Clean, Tracks, NextOpen, Redirects, Adds, Complete, Done, Decision, SymbolDone, Covered;
      hide HashAfter, TracedUpTo, Valid, InputOk;
      SoFar();
      ghost var before := Part(symbolMap[..], symHashes[..], first);
      HashUnchanged(Now(), input, i, before, pass0 || skip0);
      pass, skipNext := pass0, skip0;
      var left := false;
      if symbolMap[i] == -1 {
        if clean { MarkedStep(input.syms, i, open0, before.symbolMap, pass0 || skip0, out, Keeping()); }
        CoveredMarked(Now(), input, i, before, pass0 || skip0);
        MoreTraced(origins0, origins, origins, input.syms, symbolMap[..], symbolMap[..], i);
      } else {
        if clean { WaitsForPlain(input.syms, i, open0, before.symbolMap, pass0 || skip0, out, Keeping()); }
        pass, skipNext, left := CopySymbol(input, i, symbolMap, symHashes, pass0, skip0);
        ghost var h := HashAfter(input, i, pass0 || skip0);
        SymbolGrew(input, i, pass0, skip0, old(Now()), Now(), left, symbolMap[i]);
        CoveredCopied(old(Now()), Now(), input, i, before, pass0 || skip0, pass0, skip0, left, symbolMap[i], h,
                      pass || skipNext);
        assert Part(symbolMap[..], symHashes[..], first) == Updated(input, i, before, left, symbolMap[i], h);
        TracedNow(old(Now()), Now(), input, i, before, pass0, skip0, left, symbolMap[i], h, origins0);
        if clean {
          CopiedStep(input.syms, i, open0, before.symbolMap, pass0 || skip0, old(out), out, left, symbolMap[i],
                     pass || skipNext, Keeping());
        }
      }
      open := NextOpen(input.syms[i], open0, left);
    }

    lemma HashUnchanged(log: Log, input: Input, i: nat, part: Part, waiting: bool)
      requires Covered(log, input, i, part, waiting) && i < |input.syms|
      ensures part.symHashes[i] == input.hashes[i]
      ensures |input.syms| == |input.hashes| == |part.symbolMap| == |part.symHashes|
    {
      hide Found, InOrder;
    }

    lemma TracedNow(log: Log, more: Log, input: Input, i: nat, part: Part, pass0: bool, skip0: bool, left: bool, v: int,
                    h: Entry?, origins0: map<nat, Origin>)
      requires i < |input.syms| == |input.hashes| == |part.symbolMap| == |part.symHashes|
      requires SymbolDone(input, i, pass0, skip0, log, more, left, v)
      requires TracedUpTo(origins0, log.origins, input.syms, part.symbolMap, i)
      ensures TracedUpTo(origins0, more.origins, input.syms, Updated(input, i, part, left, v, h).symbolMap, i + 1)
    {
      hide CopyOf, Dropped, HeaderRecord, OtherRecord, Updated, FitsOrigin, HeadOf;
      var m := Updated(input, i, part, left, v, h).symbolMap;
      forall k | 0 <= k < i + 1
        ensures m[k] == if k < i then part.symbolMap[k] else v
      {
        UpdatedAt(input, i, part, left, v, h, k);
      }
      MoreTraced(origins0, log.origins, more.origins, input.syms, part.symbolMap, m, i);
    }

    /** A symbol for the input file itself, unless such symbols are discarded. */
    method FileSymbol(input: Input)
      requires Valid() && Headers() && Complete()
      modifies this`count, this`outputSyms, this`out, this`owner, this`origins
      ensures Valid() && Headers() && Complete() && Grows(old(Now()), Now()) && origins == old(origins)
      ensures out == old(out) + (if NamesFile(input) then [FileRecord(input)] else [])
      ensures Balanced(old(out)) ==> Balanced(out)
    {
      hide Rem, Valid, Headers, Complete, Balanced;
      SoFar();
      if NamesFile(input) {
        var record := FileRecord(input);
        CopyRecord(record, null);
        PlainStaysBalanced(old(out), record);
      }
    }

    /** The records in memory are written behind those on disk. */
    method Flush()
      requires Valid() && Headers()
      modifies this`symoff, this`outputSyms, this`file
      ensures Valid() && Headers() && Flushed()
    {
      ghost var n := count - |outputSyms|;
      var k := 0;
      while k < |outputSyms|
        invariant outputSyms == old(outputSyms)
        invariant 0 <= k <= |outputSyms| && symoff == symFilepos + EXTERNAL_NLIST_SIZE * (n + k)
        invariant forall j :: 0 <= j < n + k ==> OnDisk(j)
      {
        label Before:
        assert outputSyms[k] == out[n..][k];
        file := file[symoff := outputSyms[k]];
        symoff := symoff + EXTERNAL_NLIST_SIZE;
        forall j | 0 <= j < n + k + 1
          ensures OnDisk(j)
        {
          if j < n + k { assert old@Before(OnDisk(j)); }
        }
        k := k + 1;
      }
      outputSyms := [];
      assert out[count..] == [];
    }

    /** What relocation processing does when it needs a record that there is not: whatever was
        decided about stripping, an entry that can have a record gets one, and only one.  An entry that
        stands for another one is left with the order to write it. */
    method ForceOut(h: Entry) returns (index: int)
      requires Ready() && h in table
      modifies this`symoff, this`count, this`file, this`out, this`owner
      modifies h`written, h`indx, Meant(h)`written, Meant(h)`indx
      ensures Ready() && Grows(old(Now()), Now()) && index == h.indx != -1
      ensures Balanced(old(out)) ==> Balanced(out)
      ensures old(h.indx) >= 0 ==> index == old(h.indx) && out == old(out) && owner == old(owner)
      ensures index >= 0 ==> index < |owner| && owner[index] == h
      ensures index >= 0 <==> old(h.indx) >= 0 || OtherRecord(h).Some?
      ensures old(h.indx) < 0 && OtherRecord(h).Some? ==> out == old(out) + [OtherRecord(h).value]
      ensures forall g <- table :: old(g.indx) >= 0 ==> g.indx == old(g.indx)
    {
      hide HeadersOk, Balanced;
      assert Emitted(h) && Settled(h) && LinkOk(table, h) && Emitted(Meant(h)) && Settled(Meant(h));
      if h.indx < 0 {
        h.indx := -2;
        h.written := false;
        assert forall g <- table :: old(Emitted(g)) ==> Emitted(g);
        assert forall g <- table :: g != h ==> old(Settled(g)) ==> Settled(g);
        WriteOtherSymbol(h);
      }
      index := h.indx;
      assert Emitted(h);
    }

    // -------------------------------------------------------------------------------------
    // The whole link
    // -------------------------------------------------------------------------------------

    /** The index that a relocation against symbol `r` of an input file gets in a relocatable link,
        when the symbol is not turned into a section: that of the symbol map, one that is forced out for
        its entry, or record zero if there is nothing to attach it to. */
    method RelocIndex(symbolMap: array<int>, symHashes: array<Entry?>, r: nat) returns (index: int)
      requires Ready() && r < symbolMap.Length == symHashes.Length && (symHashes[r] != null ==> symHashes[r] in table)
      modifies this`count, this`symoff, this`file, this`out, this`owner, table`written, table`indx
      ensures Ready() && Grows(old(Now()), Now()) && (Balanced(old(out)) ==> Balanced(out))
      ensures Attached(owner, symbolMap[r], symHashes[r], index)
      ensures symbolMap[r] != -1 || symHashes[r] == null ==> out == old(out)
      ensures forall g <- table :: old(g.indx) >= 0 ==> g.indx == old(g.indx)
    {
      hide Balanced, HeadersOk, OtherRecord;
      index := symbolMap[r];
      var h := symHashes[r];
      if index == -1 {
        if h != null {
          assert LinkOk(table, h);
          index := ForceOut(h);
        } else {
          index := 0;
        }
      }
    }

    lemma AttachedGrows(log: Log, more: Log, input: Input, part: Part, needed: seq<nat>, indexes: seq<int>, n: nat)
      requires Grows(log, more) && AllAttached(log.owner, part, needed, indexes, n)
      ensures AllAttached(more.owner, part, needed, indexes, n)
    {
      hide OtherRecord;
    }

    /** An input file and its relocations. */
    method LinkInput(input: Input, needed: seq<nat>) returns (indexes: seq<int>, ghost part: Part)
      requires Ready() && InputOk(input) && forall k :: 0 <= k < |needed| ==> needed[k] < |input.syms|
      modifies this`count, this`symoff, this`outputSyms, this`file, this`out, this`owner, this`includes, this`origins
      modifies table`written, table`indx
      ensures Ready() && Grows(old(Now()), Now())
      ensures Present(Now(), input, part) && |old(out)| <= part.first && (NamesFile(input) ==> |old(out)| < part.first)
      ensures TracedBy(old(origins), origins, input.syms, part.symbolMap)
      ensures Clean(input.syms) && strip != StripSome && Balanced(old(out)) ==> Balanced(out)
      ensures |indexes| == |needed| && AllAttached(owner, part, needed, indexes, |needed|)
      ensures forall g <- table :: old(g.indx) >= 0 ==> g.indx == old(g.indx)
    {
      hide Balanced, HeadersOk, Clean, Present, TracedBy, Attached, Valid, Complete, InputOk;
      var symbolMap, symHashes;
      symbolMap, symHashes, part := WriteSymbols(input);
      PartSizes(Now(), input, part);
      indexes := [];
      for k := 0 to |needed|
        invariant Ready() && Grows(old(Now()), Now()) && part == Part(symbolMap[..], symHashes[..], part.first)
        invariant Clean(input.syms) && strip != StripSome && Balanced(old(out)) ==> Balanced(out)
        invariant Present(Now(), input, part) && TracedBy(old(origins), origins, input.syms, part.symbolMap)
        invariant |indexes| == k && AllAttached(owner, part, needed[..k], indexes, k)
        invariant forall g <- table :: old(g.indx) >= 0 ==> g.indx == old(g.indx)
      {
        ghost var was := Now();
        HashesInTable(was, input, part, needed[k]);
        var index := RelocIndex(symbolMap, symHashes, needed[k]);
        PresentGrows(was, Now(), input, part);
        AttachedGrows(was, Now(), input, part, needed[..k], indexes, k);
        indexes := indexes + [index];
      }
      assert needed[..|needed|] == needed;
    }

    lemma PartSizes(log: Log, input: Input, part: Part)
      requires Present(log, input, part)
      ensures |part.symbolMap| == |part.symHashes| == |input.syms| == |input.hashes|
    {
      hide InOrder, Found;
    }

    lemma HashesInTable(log: Log, input: Input, part: Part, r: nat)
      requires Present(log, input, part) && r < |input.syms|
      ensures |part.symbolMap| == |part.symHashes| == |input.syms|
      ensures part.symHashes[r] != null ==> part.symHashes[r] in table
    {
      hide InOrder, Mapped, Accounted, LeftOut, Behind, Base, FileRecord;
      assert Found(log, input, r, part.symbolMap[r], part.symHashes[r]);
    }

    /** A relocation against a global symbol that was looked at is attached to the record of its entry, or
        of the entry behind it; it is not attached only if that entry has nothing to write. */
    lemma AttachedToEntry(log: Log, input: Input, part: Part, r: nat, index: int)
      requires Present(log, input, part) && r < |input.syms| && input.hashes[r] != null
      requires !LeftOut(log.out, input.syms, r) && !Behind(log.out, input.syms, r)
      requires |part.symbolMap| == |part.symHashes| == |input.syms|
      requires Attached(log.owner, part.symbolMap[r], part.symHashes[r], index)
      ensures InputOk(input) && LinksOk(table)
      ensures index >= 0 ==> index < |log.owner| && log.owner[index] in {input.hashes[r], Base(table, input.hashes[r])}
      ensures index < 0 ==>
                || OtherRecord(Base(table, input.hashes[r])).None?
                || (part.symbolMap[r] == -2 && OtherRecord(input.hashes[r]).None?)
    {
      hide InOrder, LeftOut, Behind, Base, FileRecord, OtherRecord;
      assert Found(log, input, r, part.symbolMap[r], part.symHashes[r]);
    }

    /** Every entry is visited, and written if it has not been. */
    method Traverse(entries: seq<Entry>)
      requires Ready() && forall h <- entries :: h in table
      modifies this`count, this`symoff, this`file, this`out, this`owner, table`written, table`indx
      ensures Ready() && Grows(old(Now()), Now()) && (Balanced(old(out)) ==> Balanced(out))
      ensures forall h <- entries :: !Refers(h.kind) && !h.kind.New? ==> h.written
      ensures forall g <- table :: (old(g.indx) >= 0 ==> g.indx == old(g.indx)) && (old(g.written) ==> g.written)
    {
      hide Balanced, HeadersOk, Valid, Settled;
      SoFar();
      for k := 0 to |entries|
        invariant Ready() && Grows(old(Now()), Now()) && (Balanced(old(out)) ==> Balanced(out))
        invariant forall j :: 0 <= j < k && !Refers(entries[j].kind) && !entries[j].kind.New? ==> entries[j].written
        invariant forall g <- table :: (old(g.indx) >= 0 ==> g.indx == old(g.indx)) && (old(g.written) ==> g.written)
      {
        MeantInTable(entries[k]);
        WriteOtherSymbol(entries[k]);
        SoFar();
      }
    }

    lemma MeantInTable(h: Entry)
      requires Valid() && h in table
      ensures Meant(h) in table
    {
      assert LinkOk(table, h);
    }

    /** The symbols of a final link: the dynamic symbol first if there is one, then one input file
        after the other, then whatever is left, then the symbols of relocations that the linker was
        asked to make. */
    method FinalLink(dynamic: seq<Entry>, inputs: seq<(Input, seq<nat>)>, entries: seq<Entry>, late: seq<Entry>)
      returns (indexes: seq<seq<int>>, ghost parts: seq<Part>)
      requires Ready() && out == [] && origins == map[]
      requires (forall h <- dynamic :: h in table) && (forall h <- late :: h in table)
      requires (forall h <- entries :: h in table) && forall h <- table :: h in entries
      requires forall x <- inputs :: InputOk(x.0) && forall k :: 0 <= k < |x.1| ==> x.1[k] < |x.0.syms|
      modifies this`count, this`symoff, this`outputSyms, this`file, this`out, this`owner, this`includes, this`origins
      modifies table`written, table`indx
      ensures Ready()
      ensures strip == StripNone ==> forall h <- table :: OtherRecord(h).Some? ==> h.indx >= 0
      ensures strip != StripSome && (forall x <- inputs :: Clean(x.0.syms)) ==> Balanced(out)
      ensures LinkedAll(Now(), inputs, indexes, parts, |inputs|)
      ensures ReferencesJustified(out, inputs, parts) && HeadersOnce(out, inputs, parts)
      ensures forall h <- late :: OtherRecord(h).Some? ==> h.indx >= 0
    {
      hide Balanced, Ready, Clean, OtherRecord, LinkedAll, TracedToAny, ReferencesJustified, HeadersOnce;
      assert Balanced([]) by { NothingOpen(); }
      Traverse(dynamic);
      indexes, parts := LinkInputs(inputs);
      ghost var was := Now();
      Traverse(entries);
      LinkedGrows(was, Now(), inputs, indexes, parts, |inputs|);
      AllHaveRecords(entries);
      was := Now();
      ForceLate(late);
      LinkedGrows(was, Now(), inputs, indexes, parts, |inputs|);
      References(inputs, indexes, parts);
    }

    /** One input file after the other. */
    method LinkInputs(inputs: seq<(Input, seq<nat>)>) returns (indexes: seq<seq<int>>, ghost parts: seq<Part>)
      requires Ready() && origins == map[]
      requires forall x <- inputs :: InputOk(x.0) && forall k :: 0 <= k < |x.1| ==> x.1[k] < |x.0.syms|
      modifies this`count, this`symoff, this`outputSyms, this`file, this`out, this`owner, this`includes, this`origins
      modifies table`written, table`indx
      ensures Ready() && LinkedAll(Now(), inputs, indexes, parts, |inputs|)
      ensures TracedToAny(origins, inputs, parts, |inputs|)
      ensures Balanced(old(out)) && strip != StripSome && (forall x <- inputs :: Clean(x.0.syms)) ==> Balanced(out)
    {
      hide Balanced, Ready, Clean, InputOk, LinkedAll, TracedToAny, TracedBy, Present, AllAttached;
      indexes, parts := [], [];
      NothingLinked(Now(), inputs);
      for k := 0 to |inputs|
        invariant Ready() && |indexes| == |parts| == k
        invariant Balanced(old(out)) && strip != StripSome && (forall x <- inputs :: Clean(x.0.syms)) ==> Balanced(out)
        invariant LinkedAll(Now(), inputs, indexes, parts, k) && TracedToAny(origins, inputs, parts, k)
      {
        assert inputs[k] in inputs;
        ghost var was := Now();
        var more;
        ghost var part;
        more, part := LinkInput(inputs[k].0, inputs[k].1);
        LinkedNext(was, Now(), inputs, indexes, parts, k, more, part);
        indexes, parts := indexes + [more], parts + [part];
      }
    }

    /** The symbols of relocations that the linker was asked to make. */
    method ForceLate(late: seq<Entry>)
      requires Ready() && forall h <- late :: h in table
      modifies this`count, this`symoff, this`file, this`out, this`owner, table`written, table`indx
      ensures Ready() && Grows(old(Now()), Now()) && (Balanced(old(out)) ==> Balanced(out))
      ensures forall h <- late :: OtherRecord(h).Some? ==> h.indx >= 0
      ensures forall g <- table :: old(g.indx) >= 0 ==> g.indx == old(g.indx)
    {
      hide Balanced, Ready, OtherRecord;
      ReadySoFar();
      for k := 0 to |late|
        invariant Ready() && Grows(old(Now()), Now()) && (Balanced(old(out)) ==> Balanced(out))
        invariant forall j :: 0 <= j < k && OtherRecord(late[j]).Some? ==> late[j].indx >= 0
        invariant forall g <- table :: old(g.indx) >= 0 ==> g.indx == old(g.indx)
      {
        assert late[k] in late;
        ReadyMeant(late[k]);
        var _ := ForceOut(late[k]);
      }
    }

    lemma ReadySoFar()
      requires Ready()
      ensures |out| == |owner|
    {
    }

    lemma ReadyMeant(h: Entry)
      requires Ready() && h in table
      ensures Meant(h) in table
    {
      MeantInTable(h);
    }

    lemma References(inputs: seq<(Input, seq<nat>)>, indexes: seq<seq<int>>, parts: seq<Part>)
      requires Ready() && TracedToAny(origins, inputs, parts, |inputs|)
      requires LinkedAll(Now(), inputs, indexes, parts, |inputs|)
      ensures ReferencesJustified(out, inputs, parts) && HeadersOnce(out, inputs, parts)
    {
      hide Valid, Complete, TracedToAny, HeadersOk, Present, AllAttached, EndsBefore, HeadersOnce, HeadersKnown;
      Justify(out, includes, origins, inputs, parts);
      forall a | 0 <= a < |inputs|
        ensures HeadersKnown(Now(), inputs[a].0, parts[a])
      {
        assert LinkedOne(Now(), inputs[a].0, inputs[a].1, indexes[a], parts[a]);
        KnownHeaders(Now(), inputs[a].0, parts[a]);
      }
      OnlyOnce(Now(), includes, inputs, parts);
    }

    lemma KnownHeaders(log: Log, input: Input, part: Part)
      requires Present(log, input, part)
      ensures HeadersKnown(log, input, part)
    {
      hide InOrder, Mapped, Accounted, Resolved, FileRecord, Behind, HeadOf, HeadedBy;
      forall i: nat | OpensHeader(log.out, input, part, i)
        ensures HeadedBy(log.origins, part.symbolMap[i], HeadOf(input.syms, i))
      {
        assert Found(log, input, i, part.symbolMap[i], part.symHashes[i]);
      }
    }

    /** The first `n` input files: their symbols are accounted for, their relocations attached, and the
        records of one file come before those of the next. */
    ghost predicate LinkedAll(log: Log, inputs: seq<(Input, seq<nat>)>, indexes: seq<seq<int>>, parts: seq<Part>,
                              n: nat) {
      && n <= |inputs| && n == |indexes| == |parts|
      && (forall j :: 0 <= j < n ==> LinkedOne(log, inputs[j].0, inputs[j].1, indexes[j], parts[j]))
      && (forall i, j :: 0 <= i < j < n ==> EndsBefore(inputs[i].0, parts[i], parts[j].first))
    }

    ghost predicate LinkedOne(log: Log, input: Input, needed: seq<nat>, indexes: seq<int>, part: Part) {
      && Present(log, input, part) && |indexes| == |needed| && AllAttached(log.owner, part, needed, indexes, |needed|)
    }

    /** Records of symbols without entries are in front of a record. */
    ghost predicate EndsBefore(input: Input, part: Part, n: nat) {
      && |input.hashes| == |part.symbolMap|
      && forall k :: 0 <= k < |part.symbolMap| && input.hashes[k] == null ==> part.symbolMap[k] < n
    }

    lemma NothingLinked(log: Log, inputs: seq<(Input, seq<nat>)>)
      requires log.origins == map[]
      ensures LinkedAll(log, inputs, [], [], 0) && TracedToAny(log.origins, inputs, [], 0)
    {
    }

    lemma LinkedGrows(log: Log, more: Log, inputs: seq<(Input, seq<nat>)>, indexes: seq<seq<int>>, parts: seq<Part>,
                      n: nat)
      requires LinkedAll(log, inputs, indexes, parts, n) && Grows(log, more)
      ensures LinkedAll(more, inputs, indexes, parts, n)
    {
      hide Present, AllAttached, EndsBefore;
      forall j | 0 <= j < n
        ensures LinkedOne(more, inputs[j].0, inputs[j].1, indexes[j], parts[j])
      {
        assert LinkedOne(log, inputs[j].0, inputs[j].1, indexes[j], parts[j]);
        PresentGrows(log, more, inputs[j].0, parts[j]);
        AttachedGrows(log, more, inputs[j].0, parts[j], inputs[j].1, indexes[j], |inputs[j].1|);
      }
    }

    lemma LinkedNext(log: Log, more: Log, inputs: seq<(Input, seq<nat>)>, indexes: seq<seq<int>>, parts: seq<Part>,
                     n: nat, index: seq<int>, part: Part)
      requires n < |inputs| && LinkedAll(log, inputs, indexes, parts, n) && Grows(log, more)
      requires LinkedOne(more, inputs[n].0, inputs[n].1, index, part) && |log.out| <= part.first
      requires TracedToAny(log.origins, inputs, parts, n)
      requires TracedBy(log.origins, more.origins, inputs[n].0.syms, part.symbolMap)
      ensures LinkedAll(more, inputs, indexes + [index], parts + [part], n + 1)
      ensures TracedToAny(more.origins, inputs, parts + [part], n + 1)
    {
      hide LinkedOne, EndsBefore, ComesFrom;
      LinkedGrows(log, more, inputs, indexes, parts, n);
      forall i | 0 <= i < n
        ensures EndsBefore(inputs[i].0, parts[i], part.first)
      {
        assert LinkedOne(log, inputs[i].0, inputs[i].1, indexes[i], parts[i]);
        PartEnds(log, inputs[i].0, inputs[i].1, indexes[i], parts[i], part.first);
      }
      forall k <- more.origins
        ensures TracedTo(inputs, parts + [part], n + 1, k, more.origins[k])
      {
        if k in log.origins {
          var j, i :| && 0 <= j < n && 0 <= i < |parts[j].symbolMap|
                      && ComesFrom(inputs[j].0.syms, parts[j].symbolMap, i, k, log.origins[k]);
          assert (parts + [part])[j] == parts[j];
        } else {
          var i :| 0 <= i < |part.symbolMap| && ComesFrom(inputs[n].0.syms, part.symbolMap, i, k, more.origins[k]);
          assert (parts + [part])[n] == part;
        }
      }
    }

    lemma PartEnds(log: Log, input: Input, needed: seq<nat>, indexes: seq<int>, part: Part, n: nat)
      requires LinkedOne(log, input, needed, indexes, part) && |log.out| <= n
      ensures EndsBefore(input, part, n)
    {
      hide InOrder, Accounted, Resolved, RecordFor, FileRecord, AllAttached, OtherRecord;
      forall k | 0 <= k < |part.symbolMap|
        ensures part.symbolMap[k] < n
      {
        assert Found(log, input, k, part.symbolMap[k], part.symHashes[k]);
      }
    }

    lemma AllHaveRecords(entries: seq<Entry>)
      requires Ready() && forall h <- table :: h in entries
      requires forall h <- entries :: !Refers(h.kind) && !h.kind.New? ==> h.written
      ensures strip == StripNone ==> forall h <- table :: OtherRecord(h).Some? ==> h.indx >= 0
    {
      hide Valid, Headers;
      assert forall h <- table :: Settled(h);
    }

    /** No entry has two records. */
    lemma NoneTwice(j: nat, k: nat)
      requires Valid() && j < |owner| && k < |owner| && owner[j] != null && owner[j] == owner[k]
      ensures j == k
    {
    }
  }

  lemma PlainStaysBalanced(out: seq<Nlist>, r: Nlist)
    requires Plain(r)
    ensures Balanced(out) ==> Balanced(out + [r])
  {
    if Balanced(out) { DepthNext(out, r); }
  }

  lemma NothingOpen()
    ensures Balanced([])
  {
  }

  ghost predicate LinksOk(table: set<Entry>) {
    forall h <- table :: LinkOk(table, h)
  }

  /** The entry behind all indirections. */
  ghost function Base(table: set<Entry>, h: Entry): (r: Entry)
    requires h in table && LinksOk(table)
    ensures r in table && !Refers(r.kind)
    decreases h.rank
  {
    assert LinkOk(table, h);
    if Refers(h.kind) then Base(table, h.kind.link) else h
  }

  /** Entries that stand for another one do so without a circle, and a warning for no warning. */
  ghost predicate LinkOk(table: set<Entry>, h: Entry) {
    && (Refers(h.kind) ==> h.kind.link in table && h.kind.link.rank < h.rank)
    && (h.kind.Warning? ==> !h.kind.link.kind.Warning?)
  }

  // ---------------------------------------------------------------------------------------
  // The symbol map and the references of the input files
  // ---------------------------------------------------------------------------------------

  /** What the symbols of one input file became: the symbol map, the entries that relocations use, and
      the index of the first record for a symbol. */
  datatype Part = Part(symbolMap: seq<int>, symHashes: seq<Entry?>, first: nat)

  /** The index of a relocation whose symbol has this entry in the map: it is the record of the symbol, or
      if there is none, the record of the entry, which fails only if the entry has nothing to write. */
  ghost predicate Attached(owner: seq<Entry?>, mapped: int, h: Entry?, index: int) {
    if mapped != -1 then index == mapped
    else if h == null then index == 0
    else && (index >= 0 ==> index < |owner| && owner[index] == h)
         && (index < 0 ==> index == -2 && OtherRecord(h).None?)
  }

  ghost predicate AllAttached(owner: seq<Entry?>, part: Part, needed: seq<nat>, indexes: seq<int>, n: nat) {
    && n <= |needed| && n <= |indexes| && |part.symbolMap| == |part.symHashes|
    && forall k :: 0 <= k < n ==>
         && needed[k] < |part.symbolMap|
         && Attached(owner, part.symbolMap[needed[k]], part.symHashes[needed[k]], indexes[k])
  }

  /** A symbol is a reference, or opens a header, as an origin says. */
  ghost predicate FitsOrigin(syms: seq<Nlist>, i: nat, o: Origin)
    requires i < |syms|
  {
    if o.Given? then syms[i].kind == N_EXCL else Opens(syms[i]) && o.head == HeadOf(syms, i)
  }

  /** Record `k` is that of symbol `i`, which fits its origin. */
  ghost predicate ComesFrom(syms: seq<Nlist>, symbolMap: seq<int>, i: nat, k: nat, o: Origin) {
    i < |syms| && i < |symbolMap| && symbolMap[i] == k && FitsOrigin(syms, i, o)
  }

  /** Of the first `n` symbols come the records about headers that were added. */
  ghost predicate TracedUpTo(before: map<nat, Origin>, after: map<nat, Origin>, syms: seq<Nlist>, symbolMap: seq<int>,
                             n: nat) {
    && Extends(before, after) && n <= |symbolMap|
    && forall k :: k in after && k !in before ==> exists i :: 0 <= i < n && ComesFrom(syms, symbolMap, i, k, after[k])
  }

  ghost predicate TracedBy(before: map<nat, Origin>, after: map<nat, Origin>, syms: seq<Nlist>, symbolMap: seq<int>) {
    && Extends(before, after)
    && forall k :: k in after && k !in before ==>
         exists i :: 0 <= i < |symbolMap| && ComesFrom(syms, symbolMap, i, k, after[k])
  }

  lemma NothingTraced(origins: map<nat, Origin>, syms: seq<Nlist>, symbolMap: seq<int>)
    ensures TracedUpTo(origins, origins, syms, symbolMap, 0)
  {
  }

  lemma AllTraced(before: map<nat, Origin>, after: map<nat, Origin>, syms: seq<Nlist>, symbolMap: seq<int>)
    requires TracedUpTo(before, after, syms, symbolMap, |symbolMap|)
    ensures TracedBy(before, after, syms, symbolMap)
  {
    hide ComesFrom;
  }

  lemma MoreTraced(before: map<nat, Origin>, after: map<nat, Origin>, after': map<nat, Origin>, syms: seq<Nlist>,
                   symbolMap: seq<int>, symbolMap': seq<int>, n: nat)
    requires TracedUpTo(before, after, syms, symbolMap, n) && n < |symbolMap| == |symbolMap'| && n < |syms|
    requires Extends(after, after')
    requires forall i :: 0 <= i < n ==> symbolMap[i] == symbolMap'[i]
    requires forall k :: k in after' && k !in after ==> k == symbolMap'[n] && FitsOrigin(syms, n, after'[k])
    ensures TracedUpTo(before, after', syms, symbolMap', n + 1)
  {
    hide FitsOrigin;
    forall k | k in after' && k !in before
      ensures exists i :: 0 <= i < n + 1 && ComesFrom(syms, symbolMap', i, k, after'[k])
    {
      if k in after {
        var i :| 0 <= i < n && ComesFrom(syms, symbolMap, i, k, after[k]);
        assert ComesFrom(syms, symbolMap', i, k, after'[k]);
      } else {
        assert ComesFrom(syms, symbolMap', n, k, after'[k]);
      }
    }
  }

  /** Record `k` is that of a symbol of one of the first `n` input files. */
  ghost predicate TracedTo(inputs: seq<(Input, seq<nat>)>, parts: seq<Part>, n: nat, k: nat, o: Origin)
    requires n <= |inputs| && n == |parts|
  {
    exists j, i :: && 0 <= j < n && 0 <= i < |parts[j].symbolMap|
                   && ComesFrom(inputs[j].0.syms, parts[j].symbolMap, i, k, o)
  }

  ghost predicate TracedToAny(origins: map<nat, Origin>, inputs: seq<(Input, seq<nat>)>, parts: seq<Part>, n: nat) {
    && n <= |inputs| && n == |parts|
    && forall k <- origins :: TracedTo(inputs, parts, n, k, origins[k])
  }

  /** Every reference to a header in the output has a record in front of it that opens a header with its
      name and checksum, unless it is the record of a symbol that is a reference in an input file. */
  ghost predicate ReferencesJustified(out: seq<Nlist>, inputs: seq<(Input, seq<nat>)>, parts: seq<Part>) {
    && |parts| == |inputs|
    && forall k :: 0 <= k < |out| && out[k].kind == N_EXCL ==>
         RefersBack(out, k) || TracedTo(inputs, parts, |inputs|, k, Given)
  }

  lemma Justify(out: seq<Nlist>, includes: map<bytes, seq<nat>>, origins: map<nat, Origin>,
                inputs: seq<(Input, seq<nat>)>, parts: seq<Part>)
    requires HeadersOk(out, includes, origins) && TracedToAny(origins, inputs, parts, |inputs|)
    ensures ReferencesJustified(out, inputs, parts)
  {
    hide RefersBack, HeadersOk, TracedTo;
    forall k | 0 <= k < |out| && out[k].kind == N_EXCL
      ensures RefersBack(out, k) || TracedTo(inputs, parts, |inputs|, k, Given)
    {
      ReferenceFound(out, includes, origins, k);
    }
  }

  lemma OriginsBelow(out: seq<Nlist>, includes: map<bytes, seq<nat>>, origins: map<nat, Origin>)
    requires HeadersOk(out, includes, origins)
    ensures forall k <- origins :: k < |out|
  {
  }

  /** Opening symbol `i` of an input file has a record, and was looked at. */
  ghost predicate OpensHeader(out: seq<Nlist>, input: Input, part: Part, i: nat) {
    && i < |input.syms| == |part.symbolMap| && Opens(input.syms[i]) && part.symbolMap[i] >= 0
    && !Behind(out, input.syms, i)
  }

  ghost predicate OpensSame(out: seq<Nlist>, input: Input, part: Part, i: nat, head: Head) {
    OpensHeader(out, input, part, i) && HeadOf(input.syms, i) == head
  }

  /** Symbol `i` opens a header, and its record, in front of record `k`, still does. */
  ghost predicate KeptFirst(out: seq<Nlist>, input: Input, part: Part, i: nat, k: nat, head: Head) {
    && i < |input.syms| && i < |part.symbolMap| && Opens(input.syms[i]) && HeadOf(input.syms, i) == head
    && 0 <= part.symbolMap[i] < k && part.symbolMap[i] < |out| && out[part.symbolMap[i]].kind == N_BINCL
  }

  /** Of all opening symbols with the name and the checksum of a header, whatever files they are in, the
      one with the first record keeps it as it is, and the records of all others become references. */
  ghost predicate HeadersOnce(out: seq<Nlist>, inputs: seq<(Input, seq<nat>)>, parts: seq<Part>) {
    && |parts| == |inputs|
    && forall b: nat, j: nat :: b < |inputs| && OpensHeader(out, inputs[b].0, parts[b], j) ==>
         HeaderOnce(out, inputs, parts, HeadOf(inputs[b].0.syms, j), parts[b].symbolMap[j])
  }

  ghost predicate HeaderOnce(out: seq<Nlist>, inputs: seq<(Input, seq<nat>)>, parts: seq<Part>, head: Head, k: nat)
    requires |parts| == |inputs|
  {
    && k < |out|
    && if out[k].kind == N_EXCL then
         exists a: nat, i: nat :: a < |inputs| && KeptFirst(out, inputs[a].0, parts[a], i, k, head)
       else
         && out[k].kind == N_BINCL
         && forall a: nat, i: nat :: a < |inputs| && OpensSame(out, inputs[a].0, parts[a], i, head) ==>
              k <= parts[a].symbolMap[i]
  }

  /** What is known of the opening symbols of an input file. */
  ghost predicate HeadersKnown(log: Log, input: Input, part: Part) {
    forall i: nat :: OpensHeader(log.out, input, part, i) ==>
      HeadedBy(log.origins, part.symbolMap[i], HeadOf(input.syms, i))
  }

  lemma OnlyOnce(log: Log, includes: map<bytes, seq<nat>>, inputs: seq<(Input, seq<nat>)>, parts: seq<Part>)
    requires HeadersOk(log.out, includes, log.origins) && TracedToAny(log.origins, inputs, parts, |inputs|)
    requires forall a :: 0 <= a < |inputs| ==> HeadersKnown(log, inputs[a].0, parts[a])
    ensures HeadersOnce(log.out, inputs, parts)
  {
    hide HeadersOk, TracedTo, HeadOf, HeaderOnce, Behind;
    forall b: nat, j: nat | b < |inputs| && OpensHeader(log.out, inputs[b].0, parts[b], j)
      ensures HeaderOnce(log.out, inputs, parts, HeadOf(inputs[b].0.syms, j), parts[b].symbolMap[j])
    {
      assert HeadersKnown(log, inputs[b].0, parts[b]);
      OneOnce(log, includes, inputs, parts, HeadOf(inputs[b].0.syms, j), parts[b].symbolMap[j]);
    }
  }

  lemma OneOnce(log: Log, includes: map<bytes, seq<nat>>, inputs: seq<(Input, seq<nat>)>, parts: seq<Part>, head: Head,
                k: nat)
    requires HeadersOk(log.out, includes, log.origins) && TracedToAny(log.origins, inputs, parts, |inputs|)
    requires forall a :: 0 <= a < |inputs| ==> HeadersKnown(log, inputs[a].0, parts[a])
    requires HeadedBy(log.origins, k, head)
    ensures HeaderOnce(log.out, inputs, parts, head, k)
  {
    hide Behind, HeadOf, HeadersOk, TracedTo;
    HeadInForce(log.out, includes, log.origins, k, head);
    if log.out[k].kind == N_EXCL {
      var x :| 0 <= x < k && x < |log.out| && log.out[x].kind == N_BINCL && HeadedBy(log.origins, x, head);
      FirstTraced(log.out, inputs, parts, x, k, head);
    } else {
      forall a: nat, i: nat | a < |inputs| && OpensSame(log.out, inputs[a].0, parts[a], i, head)
        ensures k <= parts[a].symbolMap[i]
      {
        HeaderIs(log, inputs[a].0, parts[a], i);
      }
    }
  }

  lemma HeadInForce(out: seq<Nlist>, includes: map<bytes, seq<nat>>, origins: map<nat, Origin>, k: nat, head: Head)
    requires HeadersOk(out, includes, origins) && HeadedBy(origins, k, head)
    ensures HeadOk(out, origins, k, head)
  {
    hide HeadOk, Noted, OpenedBefore;
  }

  lemma FirstTraced(out: seq<Nlist>, inputs: seq<(Input, seq<nat>)>, parts: seq<Part>, x: nat, k: nat, head: Head)
    requires |parts| == |inputs| && TracedTo(inputs, parts, |inputs|, x, Headed(head))
    requires x < k && x < |out| && out[x].kind == N_BINCL
    ensures exists a: nat, i: nat :: a < |inputs| && KeptFirst(out, inputs[a].0, parts[a], i, k, head)
  {
    hide HeadOf;
    var a, i :| && 0 <= a < |inputs| && 0 <= i < |parts[a].symbolMap|
                && ComesFrom(inputs[a].0.syms, parts[a].symbolMap, i, x, Headed(head));
    assert KeptFirst(out, inputs[a].0, parts[a], i, k, head);
  }

  lemma HeaderIs(log: Log, input: Input, part: Part, i: nat)
    requires HeadersKnown(log, input, part) && OpensHeader(log.out, input, part, i)
    ensures i < |input.syms| == |part.symbolMap| && part.symbolMap[i] >= 0
    ensures HeadedBy(log.origins, part.symbolMap[i], HeadOf(input.syms, i))
  {
    hide Behind, HeadOf, HeadedBy;
  }

  // ---------------------------------------------------------------------------------------
  // Brackets while the symbols of a file are copied
  // ---------------------------------------------------------------------------------------

  /** The brackets of the input are balanced, and none stands where it would be taken for the target
      of an indirect or warning symbol. */
  ghost predicate Clean(syms: seq<Nlist>) {
    && Balanced(syms)
    && forall k :: 0 < k < |syms| && Redirects(syms[k - 1].kind) ==> Plain(syms[k])
  }

  ghost function NextOpen(s: Nlist, open: Open, left: bool): Open {
    if Opens(s) then open + [!left]
    else if Closes(s) && open != [] then open[..|open| - 1]
    else open
  }

  /** In front of symbol `i`: the output is as deep as there are kept headers open in the input. */
  ghost predicate Tracks(syms: seq<Nlist>, i: nat, open: Open, symbolMap: seq<int>, waiting: bool, out: seq<Nlist>,
                         keeping: bool) {
    && i <= |syms| == |symbolMap| && NeverBelow(out)
    && (waiting && i < |syms| ==> Plain(syms[i]) && symbolMap[i] != -1)
    && (if keeping then MapOk(syms, i, open, symbolMap) && |open| == Depth(syms, i) && Depth(out, |out|) == Kept(open)
        else Depth(out, |out|) == 0 && forall k :: i <= k < |syms| ==> symbolMap[k] != -1)
  }

  lemma TracksStart(syms: seq<Nlist>, symbolMap: seq<int>, out: seq<Nlist>, keeping: bool)
    requires Balanced(out) && |symbolMap| == |syms| && forall k :: 0 <= k < |symbolMap| ==> symbolMap[k] == 0
    ensures Tracks(syms, 0, [], symbolMap, false, out, keeping)
  {
    NothingMarked(syms, symbolMap);
  }

  lemma WaitsForPlain(syms: seq<Nlist>, i: nat, open: Open, symbolMap: seq<int>, waiting: bool, out: seq<Nlist>,
                      keeping: bool)
    requires Tracks(syms, i, open, symbolMap, waiting, out, keeping) && i < |syms|
    ensures waiting ==> Plain(syms[i])
  {
  }

  lemma TracksEnd(syms: seq<Nlist>, open: Open, symbolMap: seq<int>, waiting: bool, out: seq<Nlist>, keeping: bool)
    requires Tracks(syms, |syms|, open, symbolMap, waiting, out, keeping) && Clean(syms)
    ensures Balanced(out)
  {
  }

  /** What an action leaves behind: records, their entries, and the entry of the symbol map. */
  ghost predicate Done(a: Action, syms: seq<Nlist>, i: nat, before: Log, after: Log, left: bool, index: int)
    requires i < |syms|
  {
    && (left ==> a.Header?)
    && match a
       case Skip => after == before && index == -1
       case Reuse(k) => after == before && index == k
       case Copy(record, h) =>
         && after.out == before.out + [record] && after.owner == before.owner + [h] && index == |before.out|
         && after.origins == (if record.kind == N_EXCL then before.origins[|before.out| := Given] else before.origins)
       case Header =>
         && after.out == before.out + [HeaderRecord(syms, i, left)] && after.owner == before.owner + [null]
         && index == |before.out|
         && after.origins == before.origins[|before.out| := Headed(HeadOf(syms, i))]
  }

  /** What a symbol adds to the output: at most one record, and a bracket for a bracket. */
  ghost predicate Adds(s: Nlist, before: seq<Nlist>, after: seq<Nlist>, left: bool, keeping: bool, some: bool) {
    && (after == before || (|after| == |before| + 1 && before == after[..|before|]))
    && (Plain(s) ==> !left && (after == before || Plain(after[|before|])))
    && (Closes(s) ==> !left)
    && (!Plain(s) && keeping ==> after != before && after[|before|].kind == (if left then N_EXCL else s.kind))
    && (!Plain(s) && !keeping && !some ==> after == before && !left)
  }

  /** A symbol that is left out with its header. */
  lemma MarkedStep(syms: seq<Nlist>, i: nat, open: Open, symbolMap: seq<int>, waiting: bool, out: seq<Nlist>,
                   keeping: bool)
    requires Clean(syms) && Tracks(syms, i, open, symbolMap, waiting, out, keeping) && i < |syms| && symbolMap[i] == -1
    ensures Tracks(syms, i + 1, NextOpen(syms[i], open, false), symbolMap, waiting, out, keeping)
  {
    hide MapOk, Kept;
    assert symbolMap[i := symbolMap[i]] == symbolMap;
    NotOpening(syms, i, open, symbolMap);
    if Closes(syms[i]) {
      SomethingOpen(syms, i, open);
      CloseNext(syms, i, open, symbolMap, symbolMap[i]);
      KeptLess(open);
    } else {
      PlainNext(syms, i, open, symbolMap, symbolMap[i]);
    }
  }

  lemma NotOpening(syms: seq<Nlist>, i: nat, open: Open, symbolMap: seq<int>)
    requires MapOk(syms, i, open, symbolMap) && i < |syms| && symbolMap[i] == -1
    ensures !Opens(syms[i])
  {
  }

  lemma SomethingOpen(syms: seq<Nlist>, i: nat, open: Open)
    requires Balanced(syms) && i < |syms| && Closes(syms[i]) && |open| == Depth(syms, i)
    ensures open != []
  {
    assert Depth(syms, i + 1) >= 0;
  }

  lemma KeptLess(open: Open)
    requires open != []
    ensures Kept(open) == Kept(open[..|open| - 1]) + (if open[|open| - 1] then 1 else 0)
  {
  }

  lemma KeptMore(open: Open, kept: bool)
    ensures Kept(open + [kept]) == Kept(open) + (if kept then 1 else 0)
  {
    assert (open + [kept])[..|open|] == open;
  }

  /** A symbol that is looked at. */
  lemma CopiedStep(syms: seq<Nlist>, i: nat, open: Open, symbolMap: seq<int>, waiting: bool, out: seq<Nlist>,
                   after: seq<Nlist>, left: bool, v: int, waiting': bool, keeping: bool)
    requires Clean(syms) && Tracks(syms, i, open, symbolMap, waiting, out, keeping) && i < |syms| && symbolMap[i] != -1
    requires Adds(syms[i], out, after, left, keeping, false) && (waiting' ==> Redirects(syms[i].kind))
    ensures Tracks(syms, i + 1, NextOpen(syms[i], open, left),
                   (if left then Marked(syms, i + 1, 0, symbolMap) else symbolMap)[i := v], waiting', after, keeping)
  {
    hide Kept, Balanced, Marked;
    if after != out {
      DepthNext(out, after[|out|]);
      assert after == out + [after[|out|]];
    }
    if waiting' { NextWaits(syms, i, open, symbolMap, keeping); }
    if keeping { CopiedKeeping(syms, i, open, symbolMap, out, after, left, v); }
  }

  lemma NextWaits(syms: seq<Nlist>, i: nat, open: Open, symbolMap: seq<int>, keeping: bool)
    requires Clean(syms) && i < |syms| == |symbolMap| && symbolMap[i] != -1 && Redirects(syms[i].kind)
    requires if keeping then MapOk(syms, i, open, symbolMap) else forall k :: i <= k < |syms| ==> symbolMap[k] != -1
    ensures Plain(syms[i])
    ensures i + 1 < |syms| ==> Plain(syms[i + 1]) && symbolMap[i + 1] != -1
  {
  }

  lemma CopiedKeeping(syms: seq<Nlist>, i: nat, open: Open, symbolMap: seq<int>, out: seq<Nlist>, after: seq<Nlist>,
                      left: bool, v: int)
    requires Balanced(syms) && MapOk(syms, i, open, symbolMap) && i < |syms| && symbolMap[i] != -1
    requires |open| == Depth(syms, i) && NeverBelow(out) && Depth(out, |out|) == Kept(open)
    requires Adds(syms[i], out, after, left, true, false)
    ensures var open' := NextOpen(syms[i], open, left);
            && MapOk(syms, i + 1, open', (if left then Marked(syms, i + 1, 0, symbolMap) else symbolMap)[i := v])
            && |open'| == Depth(syms, i + 1) && Depth(after, |after|) == Kept(open') && NeverBelow(after)
  {
    hide Kept, Marked, MapOk;
    if after != out {
      DepthNext(out, after[|out|]);
      assert after == out + [after[|out|]];
    }
    if Opens(syms[i]) {
      KeptMore(open, !left);
      if left { OpenLeftOut(syms, i, open, symbolMap, v); } else { OpenKept(syms, i, open, symbolMap, v); }
    } else if Closes(syms[i]) {
      SomethingOpen(syms, i, open);
      CloseNext(syms, i, open, symbolMap, v);
      KeptLess(open);
    } else {
      PlainNext(syms, i, open, symbolMap, v);
    }
  }

  // ---------------------------------------------------------------------------------------
  // Symbols that are not copied
  // ---------------------------------------------------------------------------------------

  /** Symbol `b` opens a header that is left out, and record `r` refers to it. */
  ghost predicate RefersTo(syms: seq<Nlist>, b: nat, r: Nlist) {
    b < |syms| && Opens(syms[b]) && r == HeaderRecord(syms, b, true)
  }

  /** A symbol belongs to a header that the output only refers to. */
  ghost predicate LeftOut(out: seq<Nlist>, syms: seq<Nlist>, i: nat) {
    exists b: nat, k: nat :: b < i && k < |out| && RefersTo(syms, b, out[k]) && InHeader(syms, b + 1, 0, i)
  }

  /** A symbol stands behind one that redirects, with nothing but symbols left out between them. */
  ghost predicate Behind(out: seq<Nlist>, syms: seq<Nlist>, i: nat)
    requires i <= |syms|
  {
    exists j :: 0 <= j < i && Redirects(syms[j].kind) && forall k :: j < k < i ==> LeftOut(out, syms, k)
  }

  lemma LeftOutGrows(out: seq<Nlist>, more: seq<Nlist>, syms: seq<Nlist>, i: nat)
    requires out <= more && LeftOut(out, syms, i)
    ensures LeftOut(more, syms, i)
  {
    hide InHeader, HeaderRecord;
    var b: nat, k: nat :| b < i && k < |out| && RefersTo(syms, b, out[k]) && InHeader(syms, b + 1, 0, i);
    assert RefersTo(syms, b, more[k]);
  }

  lemma BehindGrows(out: seq<Nlist>, more: seq<Nlist>, syms: seq<Nlist>, i: nat)
    requires i <= |syms| && out <= more && Behind(out, syms, i)
    ensures Behind(more, syms, i)
  {
    hide LeftOut, Redirects;
    var j :| 0 <= j < i && Redirects(syms[j].kind) && forall k :: j < k < i ==> LeftOut(out, syms, k);
    forall k | j < k < i
      ensures LeftOut(more, syms, k)
    {
      LeftOutGrows(out, more, syms, k);
    }
  }

  lemma BehindNext(out: seq<Nlist>, syms: seq<Nlist>, i: nat)
    requires i < |syms| && Behind(out, syms, i) && LeftOut(out, syms, i)
    ensures Behind(out, syms, i + 1)
  {
    hide LeftOut, Redirects;
    var j :| 0 <= j < i && Redirects(syms[j].kind) && forall k :: j < k < i ==> LeftOut(out, syms, k);
    assert forall k :: j < k < i + 1 ==> LeftOut(out, syms, k);
  }

  lemma DirectlyBehind(out: seq<Nlist>, syms: seq<Nlist>, i: nat)
    requires i < |syms| && Redirects(syms[i].kind)
    ensures Behind(out, syms, i + 1)
  {
    hide LeftOut, Redirects;
  }

  lemma JustLeftOut(out: seq<Nlist>, syms: seq<Nlist>, b: nat, i: nat)
    requires b < |syms| && Opens(syms[b]) && InHeader(syms, b + 1, 0, i)
    ensures LeftOut(out + [HeaderRecord(syms, b, true)], syms, i)
  {
    hide HeaderRecord;
    AheadOf(syms, b + 1, 0, i);
    var more := out + [HeaderRecord(syms, b, true)];
    assert RefersTo(syms, b, more[|out|]);
  }
}
