/** Names of archive members: short names in the header, long names in an extended name table
    or, in the BSD 4.4 convention, directly behind the header. */
module ArNames {
  import opened Bytes
  import opened ArHeader

  /** A symbol of an object file, as far as the choice of index entries looks at it. */
  datatype Sym = Sym(name: bytes, global: bool, weak: bool, indirect: bool, unique: bool,
                     common: bool, undefined: bool)

  /** A member of an archive that is being written.  `name` is the name to store: the base
      name, or in a thin archive the path adjusted to the archive.  `within` names the archive,
      not itself thin, that the member is taken from, and `origin` is then where it starts. */
  datatype Member = Member(name: bytes, file: bytes, within: Option<bytes>, contents: bytes, hdr: Hdr,
                           extra: nat, origin: nat, isObject: bool, symbols: seq<Sym>)

  /** The file name that a thin archive records, and compares to find repeated paths. */
  function Path(m: Member): bytes {
    if m.within.Some? then m.within.value else m.file
  }

  /** What holds of every element of the list of members that is handed to the writer: headers
      have their size, and an element that starts inside an archive starts behind a header. */
  predicate ValidMember(m: Member) {
    WellFormed(m.hdr) && (m.origin == 0 || m.origin >= HDR_SIZE)
  }

  predicate ValidMembers(ms: seq<Member>) {
    forall i :: 0 <= i < |ms| ==> ValidMember(ms[i])
  }

  // ---------------------------------------------------------------------------------------
  // The name field
  // ---------------------------------------------------------------------------------------

  /** A prefix of a field overwritten in place. */
  function Over(field: bytes, text: bytes): (r: bytes)
    requires |text| <= |field|
    ensures |r| == |field| && r[..|text|] == text
    ensures forall i :: |text| <= i < |field| ==> r[i] == field[i]
  {
    text + field[|text|..]
  }

  /** `bfd_dont_truncate_arname` and `bfd_bsd_truncate_arname` on a fresh, blank field. */
  function FreshName(cfg: Config, name: bytes): (r: bytes)
    requires ValidConfig(cfg)
    ensures |r| == 16
  {
    var padded := if |name| < cfg.maxName || (cfg.style.Coff? && |name| == cfg.maxName < 16)
                  then name + [cfg.pad] else name;
    if |name| <= cfg.maxName then Over(Fill(' ', 16), padded)
    else if cfg.style.Coff? then Fill(' ', 16)
    else Over(Fill(' ', 16), name[..cfg.maxName])
  }

  /** A short name put back into a field that does not already hold it. */
  function FixName(cfg: Config, name: bytes, field: bytes): (r: bytes)
    requires ValidConfig(cfg) && |name| <= cfg.maxName && |field| == 16
    ensures |r| == 16
  {
    if field[..|name|] == name && (|name| < 16 ==> field[|name|] == cfg.pad) then field
    else Over(field, if |name| < 16 then name + [cfg.pad] else name)
  }

  /** The reference to the extended name table that replaces a long name. */
  function Reference(cfg: Config, field: bytes, offset: nat, origin: nat): (r: bytes)
    requires ValidConfig(cfg) && |field| == 16 && (origin == 0 || origin >= HDR_SIZE)
    requires |Decimal(offset)| + 1 <= cfg.maxName - 1
    ensures |r| == 16
  {
    var text :=
      if cfg.thin && origin > 0 then
        var head := Decimal(offset) + ":";
        head + SpacePad(Decimal(origin - HDR_SIZE), cfg.maxName - 1 - |head|)
      else SpacePad(Decimal(offset), cfg.maxName - 1);
    Over(field, [cfg.pad] + text)
  }

  // ---------------------------------------------------------------------------------------
  // The extended name table
  // ---------------------------------------------------------------------------------------

  predicate NeedsTable(cfg: Config, m: Member) {
    cfg.thin || |m.name| > cfg.maxName
  }

  /** In a thin archive member `k` repeats the path of the member before it. */
  predicate Reuses(cfg: Config, ms: seq<Member>, k: nat)
    requires k < |ms|
  {
    cfg.thin && k > 0 && Path(ms[k - 1]) == Path(ms[k])
  }

  function TableEntry(cfg: Config, name: bytes): bytes {
    name + (if cfg.style.Coff? then "/\n" else "\n")
  }

  /** Member `k` adds an entry of its own to the table. */
  predicate AddsEntry(cfg: Config, ms: seq<Member>, k: nat)
    requires k < |ms|
  {
    NeedsTable(cfg, ms[k]) && !Reuses(cfg, ms, k)
  }

  /** What each member adds to the table. */
  function TableParts(cfg: Config, ms: seq<Member>): (r: seq<bytes>)
    ensures |r| == |ms|
    ensures forall k :: 0 <= k < |ms| ==> r[k] == if AddsEntry(cfg, ms, k) then TableEntry(cfg, ms[k].name) else []
  {
    seq(|ms|, k requires 0 <= k < |ms| => if AddsEntry(cfg, ms, k) then TableEntry(cfg, ms[k].name) else [])
  }

  function Table(cfg: Config, ms: seq<Member>): bytes {
    Concat(TableParts(cfg, ms), |ms|)
  }

  /** The offset in the table that member `k` refers to. */
  function TableOffset(cfg: Config, ms: seq<Member>, k: nat): (off: nat)
    requires k < |ms|
  {
    if Reuses(cfg, ms, k) then TableOffset(cfg, ms, k - 1) else |Concat(TableParts(cfg, ms), k)|
  }

  /** Offsets stay printable in the name field.  A table of ten to the tenth bytes is already
      refused when its size is written. */
  predicate TableFits(cfg: Config, ms: seq<Member>) {
    |Table(cfg, ms)| < TenTo(11)
  }

  /** Member `m` after the sizing pass, which repairs the fields of short names. */
  function Sized(cfg: Config, m: Member): (r: Member)
    requires ValidConfig(cfg) && ValidMember(m)
    ensures ValidMember(r)
  {
    if NeedsTable(cfg, m) then m
    else m.(hdr := m.hdr.(name := FixName(cfg, m.name, m.hdr.name)))
  }

  /** Member `k` after the filling pass, which writes the references. */
  function Named(cfg: Config, ms: seq<Member>, k: nat): (r: Member)
    requires ValidConfig(cfg) && ValidMembers(ms) && k < |ms| && TableFits(cfg, ms)
    ensures ValidMember(r)
    ensures r == ms[k].(hdr := ms[k].hdr.(name := r.hdr.name))
  {
    if NeedsTable(cfg, ms[k]) then
      OffsetBelow(cfg, ms, k);
      OffsetPrints(TableOffset(cfg, ms, k));
      ms[k].(hdr := ms[k].hdr.(name := Reference(cfg, ms[k].hdr.name, TableOffset(cfg, ms, k), ms[k].origin)))
    else Sized(cfg, ms[k])
  }

  function AllNamed(cfg: Config, ms: seq<Member>): (r: seq<Member>)
    requires ValidConfig(cfg) && ValidMembers(ms) && TableFits(cfg, ms)
    ensures ValidMembers(r) && |r| == |ms|
    ensures forall k :: 0 <= k < |ms| ==> r[k] == Named(cfg, ms, k)
  {
    seq(|ms|, k requires 0 <= k < |ms| => Named(cfg, ms, k))
  }

  lemma OffsetPrints(off: nat)
    requires off < TenTo(11)
    ensures |Decimal(off)| <= 11
  {
    DecimalLength(off, 11);
  }

  /** A member that needs the table refers to an entry that lies inside it. */
  lemma {:induction false} OffsetBelow(cfg: Config, ms: seq<Member>, k: nat)
    requires k < |ms| && NeedsTable(cfg, ms[k])
    ensures TableOffset(cfg, ms, k) < |Table(cfg, ms)|
  {
    if Reuses(cfg, ms, k) {
      OffsetBelow(cfg, ms, k - 1);
    } else {
      ConcatSlice(TableParts(cfg, ms), k, |ms|);
    }
  }

  /** The entry starts at the start of the table or behind a newline. */
  lemma {:induction false} OffsetStartsEntry(cfg: Config, ms: seq<Member>, k: nat)
    requires k < |ms| && NeedsTable(cfg, ms[k])
    ensures StartsEntry(Table(cfg, ms), TableOffset(cfg, ms, k))
  {
    hide Concat, StartsEntry, TableParts, TableEntry, Path;
    if Reuses(cfg, ms, k) {
      OffsetStartsEntry(cfg, ms, k - 1);
    } else {
      PartsEndInNewline(cfg, ms);
      EntryLength(cfg, ms[k].name);
      ConcatSlice(TableParts(cfg, ms), k, |ms|);
      NewlineBefore(TableParts(cfg, ms), k, |ms|);
    }
  }

  predicate StartsEntry(t: bytes, off: nat) {
    off < |t| && (off == 0 || t[off - 1] == '\n')
  }

  predicate EndInNewline(parts: seq<bytes>) {
    forall i :: 0 <= i < |parts| ==> EndsInNewline(parts[i])
  }

  predicate EndsInNewline(part: bytes) {
    part != [] ==> part[|part| - 1] == '\n'
  }

  lemma PartsEndInNewline(cfg: Config, ms: seq<Member>)
    ensures EndInNewline(TableParts(cfg, ms))
  {
    hide AddsEntry;
  }

  lemma {:induction false} NewlineBefore(parts: seq<bytes>, k: nat, n: nat)
    requires EndInNewline(parts) && k <= n <= |parts| && |Concat(parts, k)| < |Concat(parts, n)|
    ensures StartsEntry(Concat(parts, n), |Concat(parts, k)|)
  {
    ConcatGrows(parts, k, n);
    if k > 0 {
      if parts[k - 1] == [] {
        NewlineBefore(parts, k - 1, n);
      } else {
        assert EndsInNewline(parts[k - 1]);
      }
    }
  }

  /** The entry a member refers to lies in the table, whole. */
  lemma {:induction false} EntryAtOffset(cfg: Config, ms: seq<Member>, k: nat)
    requires k < |ms| && NeedsTable(cfg, ms[k]) && PathsDetermineNames(cfg, ms)
    ensures var off, entry := TableOffset(cfg, ms, k), TableEntry(cfg, ms[k].name);
            off + |entry| <= |Table(cfg, ms)| && Table(cfg, ms)[off..off + |entry|] == entry
  {
    hide TableEntry, Concat, TableParts, Path;
    if Reuses(cfg, ms, k) {
      EntryAtOffset(cfg, ms, k - 1);
    } else {
      ConcatSlice(TableParts(cfg, ms), k, |ms|);
    }
  }

  /** The name that a thin archive stores is computed from the path alone. */
  predicate PathsDetermineNames(cfg: Config, ms: seq<Member>) {
    cfg.thin ==>
      forall i, j :: 0 <= i < |ms| && 0 <= j < |ms| && Path(ms[i]) == Path(ms[j]) ==> ms[i].name == ms[j].name
  }

  lemma EntryLength(cfg: Config, name: bytes)
    ensures |TableEntry(cfg, name)| == |name| + if cfg.style.Coff? then 2 else 1
  {
  }

  /** The sizing pass. */
  method SizeTable(cfg: Config, members: seq<Member>) returns (total: nat, sized: seq<Member>)
    requires ValidConfig(cfg) && ValidMembers(members)
    ensures total == |Table(cfg, members)|
    ensures |sized| == |members| && forall k :: 0 <= k < |members| ==> sized[k] == Sized(cfg, members[k])
  {
    var i := 0;
    var last: Option<bytes> := None;
    hide FixName, TableEntry, Concat, TableParts, Path;
    ghost var parts := TableParts(cfg, members);
    ConcatStart([], parts);
    total, sized := 0, [];
    while i < |members|
      invariant 0 <= i <= |members| && total == |Concat(parts, i)|
      invariant cfg.thin ==> last == if i > 0 then Some(Path(members[i - 1])) else None
      invariant |sized| == i && forall k :: 0 <= k < i ==> sized[k] == Sized(cfg, members[k])
    {
      var m := members[i];
      ConcatStep([], parts, i);
      EntryLength(cfg, m.name);
      if cfg.thin {
        if last != Some(Path(m)) {
          last := Some(Path(m));
          total := total + |m.name| + 1;
          if cfg.style.Coff? { total := total + 1; }
        }
      } else if |m.name| > cfg.maxName {
        total := total + |m.name| + 1;
        if cfg.style.Coff? { total := total + 1; }
      } else {
        m := m.(hdr := m.hdr.(name := FixName(cfg, m.name, m.hdr.name)));
      }
      sized := sized + [m];
      i := i + 1;
    }
  }

  /** One name stored at `next`; the caller has to know that it fits. */
  method StoreEntry(cfg: Config, table: array<byte>, next: nat, name: bytes) returns (end: nat)
    requires next + |TableEntry(cfg, name)| <= table.Length
    modifies table
    ensures end == next + |TableEntry(cfg, name)|
    ensures table[..end] == old(table[..next]) + TableEntry(cfg, name)
  {
    forall j | 0 <= j < |name| { table[next + j] := name[j]; }
    end := next + |name|;
    assert table[..end] == old(table[..next]) + name;
    if cfg.style.Coff? {
      table[end] := '/';
      end := end + 1;
      assert table[..end] == old(table[..next]) + name + "/";
    }
    table[end] := ARFMAG[1];
    end := end + 1;
  }

  /** Where the filling pass stands before member `i`. */
  ghost predicate FillState(cfg: Config, ms: seq<Member>, i: nat, table: bytes,
                            next: nat, last: Option<bytes>, lastOffset: nat)
    requires i <= |ms|
  {
    && next == |Concat(TableParts(cfg, ms), i)| <= |table|
    && table[..next] == Concat(TableParts(cfg, ms), i)
    && (if i == 0 then last == None
        else cfg.thin ==> last == Some(Path(ms[i - 1])) && lastOffset == TableOffset(cfg, ms, i - 1))
  }

  /** The filling pass at member `i`: its name is stored unless the path was stored just before,
      and its header becomes a reference. */
  method FillOne(cfg: Config, members: seq<Member>, i: nat, sized: Member, table: array<byte>,
                 next: nat, last: Option<bytes>, lastOffset: nat)
    returns (next': nat, last': Option<bytes>, lastOffset': nat, m: Member)
    requires ValidConfig(cfg) && ValidMembers(members) && TableFits(cfg, members)
    requires i < |members| && sized == Sized(cfg, members[i]) && table.Length == |Table(cfg, members)|
    requires FillState(cfg, members, i, table[..], next, last, lastOffset)
    modifies table
    ensures FillState(cfg, members, i + 1, table[..], next', last', lastOffset')
    ensures m == Named(cfg, members, i)
  {
    hide FixName, Reference, TableEntry, TableParts, Path;
    next', last', lastOffset', m := next, last, lastOffset, sized;
    if |m.name| > cfg.maxName || cfg.thin {
      if !(cfg.thin && last == Some(Path(m))) {
        ConcatGrows(TableParts(cfg, members), i + 1, |members|);
        last' := Some(Path(m));
        lastOffset' := next;
        assert table[..][..next] == table[..next];
        next' := StoreEntry(cfg, table, next, m.name);
        assert table[..][..next'] == table[..next'];
      }
      OffsetBelow(cfg, members, i);
      OffsetPrints(lastOffset');
      m := m.(hdr := m.hdr.(name := Reference(cfg, m.hdr.name, lastOffset', m.origin)));
    }
  }

  /** `_bfd_construct_extended_name_table`: a sizing pass, an allocation of exactly that size,
      and a filling pass whose every store lies inside the allocation and which ends at its end. */
  method ConstructTable(cfg: Config, members: seq<Member>)
    returns (table: array<byte>, named: seq<Member>)
    requires ValidConfig(cfg) && ValidMembers(members) && TableFits(cfg, members)
    ensures fresh(table) && table[..] == Table(cfg, members)
    ensures named == AllNamed(cfg, members)
  {
    var total, sized := SizeTable(cfg, members);
    table := new byte[total];
    if total == 0 {
      NoEntries(cfg, members, sized);
      named := sized;
      return;
    }
    named := FillTable(cfg, members, sized, table);
  }

  method FillTable(cfg: Config, members: seq<Member>, sized: seq<Member>,
                   table: array<byte>) returns (named: seq<Member>)
    requires ValidConfig(cfg) && ValidMembers(members) && TableFits(cfg, members)
    requires |sized| == |members| && forall k :: 0 <= k < |members| ==> sized[k] == Sized(cfg, members[k])
    requires table.Length == |Table(cfg, members)|
    modifies table
    ensures table[..] == Table(cfg, members) && named == AllNamed(cfg, members)
  {
    hide FillState, AllNamed, Named, Sized, TableFits, ValidMember;
    ghost var all := AllNamed(cfg, members);
    var next: nat, lastOffset: nat, i: nat := 0, 0, 0;
    var last: Option<bytes> := None;
    named := [];
    FillStart(cfg, members, table[..]);
    while i < |members|
      invariant 0 <= i <= |members| && named == all[..i]
      invariant FillState(cfg, members, i, table[..], next, last, lastOffset)
    {
      var m;
      next, last, lastOffset, m := FillOne(cfg, members, i, sized[i], table, next, last, lastOffset);
      PrefixStep(all, i);
      named := named + [m];
      i := i + 1;
    }
    FillEnd(cfg, members, table[..], next, last, lastOffset);
  }

  lemma FillStart(cfg: Config, ms: seq<Member>, table: bytes)
    ensures FillState(cfg, ms, 0, table, 0, None, 0)
  {
  }

  lemma FillEnd(cfg: Config, ms: seq<Member>, table: bytes, next: nat, last: Option<bytes>, lastOffset: nat)
    requires FillState(cfg, ms, |ms|, table, next, last, lastOffset) && |table| == |Table(cfg, ms)|
    ensures table == Table(cfg, ms)
  {
    hide TableParts, Concat;
    assert table == table[..next];
  }

  lemma NoEntries(cfg: Config, ms: seq<Member>, sized: seq<Member>)
    requires ValidConfig(cfg) && ValidMembers(ms) && Table(cfg, ms) == [] && TableFits(cfg, ms)
    requires |sized| == |ms| && forall k :: 0 <= k < |ms| ==> sized[k] == Sized(cfg, ms[k])
    ensures sized == AllNamed(cfg, ms)
  {
    forall k | 0 <= k < |ms|
      ensures sized[k] == Named(cfg, ms, k)
    {
      if NeedsTable(cfg, ms[k]) { OffsetBelow(cfg, ms, k); }
    }
  }

  // ---------------------------------------------------------------------------------------
  // Reading the extended name table
  // ---------------------------------------------------------------------------------------

  predicate IsSlash(c: byte) {
    c == '/' || c == '\\'
  }

  /** The table as the reader keeps it: position by position, newlines and the slashes before
      them end a name, and other backslashes turn into slashes. */
  function RewrittenByte(t: bytes, i: nat): byte
    requires i < |t|
  {
    if t[i] == '\n' then (if i > 0 && IsSlash(t[i - 1]) then '\n' else '\0')
    else if IsSlash(t[i]) then (if i + 1 < |t| && t[i + 1] == '\n' then '\0' else '/')
    else t[i]
  }

  function Rewritten(t: bytes): (r: bytes)
    ensures |r| == |t|
    ensures forall i :: 0 <= i < |t| ==> r[i] == RewrittenByte(t, i)
  {
    seq(|t|, i requires 0 <= i < |t| => RewrittenByte(t, i))
  }

  /** The loop of `_bfd_slurp_extended_name_table`, which edits the table in place and looks
      back at bytes it may already have changed. */
  method RewriteTable(names: array<byte>)
    modifies names
    ensures names[..] == Rewritten(old(names[..]))
  {
    var i := 0;
    ghost var t := names[..];
    while i < names.Length
      invariant 0 <= i <= names.Length
      invariant forall k :: i <= k < names.Length ==> names[k] == t[k]
      invariant forall k :: 0 <= k < i - 1 ==> names[k] == RewrittenByte(t, k)
      invariant i > 0 ==> names[i - 1] == if IsSlash(t[i - 1]) then '/' else RewrittenByte(t, i - 1)
    {
      if names[i] == ARFMAG[1] {
        if i > 0 && names[i - 1] == '/' { names[i - 1] := '\0'; } else { names[i] := '\0'; }
      }
      if names[i] == '\\' {
        names[i] := '/';
      }
      i := i + 1;
    }
  }

  /** The names that a table entry can carry. */
  predicate TableNameOk(cfg: Config, name: bytes) {
    '\n' !in name && '\\' !in name && (cfg.style.Coff? || name == [] || name[|name| - 1] != '/')
  }

  /** A name stored in the table comes back from its offset, after the reader's rewriting,
      exactly when the format can carry it. */
  lemma TableNameRecovered(cfg: Config, t: bytes, off: nat, name: bytes)
    requires NulFree(name)
    requires var entry := TableEntry(cfg, name); off + |entry| <= |t| && t[off..off + |entry|] == entry
    requires off == 0 || t[off - 1] == '\n'
    ensures CString(Rewritten(t)[off..]) == name <==> TableNameOk(cfg, name)
  {
    var entry := TableEntry(cfg, name);
    var r := Rewritten(t)[off..];
    forall i | 0 <= i < |entry|
      ensures t[off + i] == entry[i] && r[i] == RewrittenByte(t, off + i)
    {
      assert t[off..off + |entry|][i] == entry[i];
    }
    if TableNameOk(cfg, name) {
      TableNameKept(cfg, t, off, name);
    } else if CString(r) == name {
      assert forall i :: 0 <= i < |name| ==> r[i] == name[i];
      TableNameLost(cfg, t, off, name);
    }
  }

  lemma TableNameKept(cfg: Config, t: bytes, off: nat, name: bytes)
    requires NulFree(name) && TableNameOk(cfg, name)
    requires off + |TableEntry(cfg, name)| <= |t| && (off == 0 || t[off - 1] == '\n')
    requires forall i :: 0 <= i < |TableEntry(cfg, name)| ==> t[off + i] == TableEntry(cfg, name)[i]
    ensures CString(Rewritten(t)[off..]) == name
  {
    var entry := TableEntry(cfg, name);
    var r := Rewritten(t)[off..];
    forall i | 0 <= i < |name|
      ensures r[i] == name[i]
    {
      assert t[off + i] == entry[i] && t[off + (i + 1)] == entry[i + 1];
      assert name[i] in name;
      if i + 1 < |name| { assert name[i + 1] in name; }
    }
    assert t[off + |name|] == entry[|name|];
    if cfg.style.Coff? {
      assert t[off + (|name| + 1)] == entry[|name| + 1];
    } else if |name| > 0 {
      assert t[off + (|name| - 1)] == name[|name| - 1] && name[|name| - 1] in name;
    }
    assert r[|name|] == '\0';
    IndexOfUnique(r, '\0', |name|);
    assert r[..|name|] == name;
  }

  lemma TableNameLost(cfg: Config, t: bytes, off: nat, name: bytes)
    requires NulFree(name) && !TableNameOk(cfg, name)
    requires off + |TableEntry(cfg, name)| <= |t| && (off == 0 || t[off - 1] == '\n')
    requires forall i :: 0 <= i < |TableEntry(cfg, name)| ==> t[off + i] == TableEntry(cfg, name)[i]
    ensures exists i :: 0 <= i < |name| && Rewritten(t)[off..][i] != name[i]
  {
    var entry := TableEntry(cfg, name);
    var r := Rewritten(t)[off..];
    if '\\' in name {
      var i :| 0 <= i < |name| && name[i] == '\\';
      assert t[off + i] == entry[i];
      assert r[i] != name[i];
    } else if '\n' in name {
      var i := IndexOf(name, '\n');
      assert t[off + i] == entry[i];
      if i > 0 && IsSlash(name[i - 1]) {
        assert t[off + (i - 1)] == entry[i - 1];
        assert name[i - 1] in name;
        assert r[i - 1] != name[i - 1];
      } else {
        if i > 0 { assert t[off + (i - 1)] == entry[i - 1]; }
        assert r[i] != name[i];
      }
    } else {
      var i := |name| - 1;
      assert t[off + i] == entry[i] && t[off + (i + 1)] == entry[i + 1] == '\n';
      assert r[i] != name[i];
    }
  }
}
