/** Reading headers back: a member's name and size come out of its header as they went in. */
module ArRead {
  import opened Bytes
  import opened ArHeader
  import opened ArNames
  import opened ArIndex
  import opened ArWrite

  // ---------------------------------------------------------------------------------------
  // Short names
  // ---------------------------------------------------------------------------------------

  /** The field holds the name, the pad character where there is room for it, and behind that
      nothing that would end the name elsewhere or look like another convention. */
  predicate Spells(cfg: Config, field: bytes, name: bytes)
    requires ValidConfig(cfg)
  {
    && |field| == 16 && |name| <= cfg.maxName && field[..|name|] == name
    && (|name| < cfg.maxName ==> field[|name|] == cfg.pad)
    && (forall i :: |name| < i < cfg.maxName ==> field[i] != '\0' && (cfg.pad == ' ' ==> field[i] != '/'))
    && !IsBsd44Name(field)
  }

  /** The names that a name field can carry. */
  predicate ShortNameOk(cfg: Config, name: bytes) {
    '/' !in name && (cfg.pad == ' ' || |name| == cfg.maxName ==> ' ' !in name)
  }

  /** A name in a name field is read back exactly when the field can carry it. */
  lemma ShortNameExact(cfg: Config, field: bytes, name: bytes)
    requires ValidConfig(cfg) && Spells(cfg, field, name) && NulFree(name)
    ensures ShortName(field[..cfg.maxName]) == name <==> ShortNameOk(cfg, name)
  {
    var f := field[..cfg.maxName];
    assert f[..|name|] == name;
    forall i | 0 <= i < |f|
      ensures f[i] != '\0'
    {
      if i < |name| { assert f[i] == name[i]; }
    }
    if '/' in name {
      var i :| 0 <= i < |name| && name[i] == '/';
      assert f[i] == '/' && IndexOf(f, '/') <= i;
    } else if '/' in f {
      forall i | 0 <= i < |name|
        ensures f[i] != '/'
      {
        assert f[i] == name[i];
      }
      var i :| 0 <= i < |f| && f[i] == '/';
      assert |name| <= i;
      assert cfg.pad == '/' && |name| < cfg.maxName;
      IndexOfUnique(f, '/', |name|);
    } else {
      NameUpToBlank(f, name);
    }
  }

  lemma NameUpToBlank(f: bytes, name: bytes)
    requires |name| <= |f| && f[..|name|] == name
    requires |name| < |f| ==> f[|name|] == ' '
    ensures f[..IndexOf(f, ' ')] == name <==> ' ' !in name
  {
    forall i | 0 <= i < |name|
      ensures f[i] == name[i]
    {
      assert f[..|name|][i] == name[i];
    }
    if ' ' in name {
      var i :| 0 <= i < |name| && name[i] == ' ';
      assert IndexOf(f, ' ') <= i;
    } else {
      IndexOfUnique(f, ' ', |name|);
    }
  }

  /** A blank field filled in by the writer spells the name. */
  lemma FreshSpells(cfg: Config, name: bytes)
    requires ValidConfig(cfg) && |name| <= cfg.maxName && '/' !in name
    ensures Spells(cfg, FreshName(cfg, name), name)
  {
    var field := FreshName(cfg, name);
    assert field[..|name|] == name;
    if |name| >= 3 {
      assert field[2] == name[2] && name[2] in name;
    }
  }

  /** So does a field that the sizing pass has repaired. */
  lemma FixedSpells(cfg: Config, name: bytes, field: bytes)
    requires ValidConfig(cfg) && |name| <= cfg.maxName && |field| == 16
    requires forall i :: |name| < i < cfg.maxName ==> field[i] != '\0' && (cfg.pad == ' ' ==> field[i] != '/')
    requires !IsBsd44Name(FixName(cfg, name, field))
    ensures Spells(cfg, FixName(cfg, name, field), name)
  {
    var fixed := FixName(cfg, name, field);
    if fixed != field {
      var text := if |name| < 16 then name + [cfg.pad] else name;
      assert fixed[..|text|] == text && text[..|name|] == name;
      assert fixed[..|name|] == fixed[..|text|][..|name|];
      if |name| < 16 { assert fixed[..|text|][|name|] == cfg.pad; }
    }
  }

  // ---------------------------------------------------------------------------------------
  // Headers in a file
  // ---------------------------------------------------------------------------------------

  /** A header with a given name field and size stands at `pos`. */
  predicate HeaderAt(file: bytes, pos: nat, h: Hdr) {
    WellFormed(h) && pos + HDR_SIZE <= |file| && file[pos..pos + HDR_SIZE] == Encode(h) && h.fmag == ARFMAG
  }

  /** Reading a header with a short name. */
  lemma ReadShort(cfg: Config, file: bytes, table: Option<bytes>, pos: nat, h: Hdr, name: bytes, size: nat)
    requires ValidConfig(cfg) && HeaderAt(file, pos, h) && ScanUnsigned(h.size) == Some(size)
    requires Spells(cfg, h.name, name) && NulFree(name) && ShortNameOk(cfg, name) && name != []
    ensures ReadHdr(cfg, file, table, pos) == Ok(Elt(name, size, 0, 0, pos + HDR_SIZE, h))
  {
    hide CString, ScanUnsigned, Atoi, ExtendedName, ShortName, Encode, Decode, IndexOf;
    DecodeEncode(h);
    ShortNameExact(cfg, h.name, name);
    assert h.name[0] == name[0] && name[0] in name by { assert h.name[..|name|][0] == name[0]; }
    if h.name[0] == ' ' {
      assert cfg.pad == '/' && |name| < cfg.maxName;
      assert h.name[..cfg.maxName][|name|] == '/';
    }
    assert !PointsIntoTable(h.name, cfg.maxName);
  }

  /** The scanners see a number that is followed by something else. */
  lemma ScanInText(n: nat, rest: bytes)
    requires rest != [] && !IsDigit(rest[0]) && rest[0] != '\0'
    ensures ScanNumber(CString(Decimal(n) + rest)) == Scan(true, false, n, |Decimal(n)|)
  {
    DecimalDigits(n);
    var s := Decimal(n) + rest;
    var c := CString(s);
    assert |c| > |Decimal(n)| by {
      forall j | 0 <= j <= |Decimal(n)|
        ensures s[j] != '\0'
      {
        if j < |Decimal(n)| { assert IsDigit(Decimal(n)[j]); }
      }
    }
    var tail := c[|Decimal(n)|..];
    assert c == Decimal(n) + tail && tail[0] == rest[0];
    ScanDecimal(n, tail);
  }

  /** Reading a reference into the extended name table. */
  lemma ReadReference(cfg: Config, file: bytes, table: bytes, pos: nat, h: Hdr, field: bytes, off: nat, size: nat)
    requires ValidConfig(cfg) && HeaderAt(file, pos, h) && ScanUnsigned(h.size) == Some(size)
    requires off < |table| && off < TenTo(11) && |field| == 16
    requires |Decimal(off)| + 1 <= cfg.maxName - 1 && h.name == Reference(cfg, field, off, 0)
    ensures ReadHdr(cfg, file, Some(table), pos)
            == Ok(Elt(CString(table[off..]), size, 0, 0, pos + HDR_SIZE, h))
  {
    hide CString, ScanUnsigned, ExtendedName, Encode, Decode, ReadHdr, Decimal, ScanNumber, PointsIntoTable;
    var blanks := Fill(' ', cfg.maxName - 1 - |Decimal(off)|);
    var tail := field[cfg.maxName..];
    assert h.name == [cfg.pad] + (Decimal(off) + blanks) + tail;
    NumberInHeader(h, [cfg.pad], off, blanks, tail);
    ElevenDigits();
    DecimalDigits(off);
    NoSlash(cfg, h.name, Decimal(off), blanks, field);
    NameFromTable(cfg.thin, table, Encode(h), off, |Decimal(off)|);
    ReadThroughTable(cfg, file, table, pos, h, CString(table[off..]), size);
  }

  lemma NameFromTable(thin: bool, table: bytes, header: bytes, off: nat, digits: nat)
    requires |header| == HDR_SIZE && off < |table| && off < TWO63 && 1 + digits < |header| && header[1 + digits] == ' '
    requires ScanNumber(CString(header[1..])) == Scan(true, false, off, digits)
    ensures ExtendedName(thin, table, header) == Ok((CString(table[off..]), 0))
  {
  }

  lemma ReadThroughTable(cfg: Config, file: bytes, table: bytes, pos: nat, h: Hdr, name: bytes, size: nat)
    requires ValidConfig(cfg) && HeaderAt(file, pos, h) && ScanUnsigned(h.size) == Some(size)
    requires PointsIntoTable(h.name, cfg.maxName)
    requires ExtendedName(cfg.thin, table, Encode(h)) == Ok((name, 0))
    ensures ReadHdr(cfg, file, Some(table), pos) == Ok(Elt(name, size, 0, 0, pos + HDR_SIZE, h))
  {
    hide CString, ScanUnsigned, Atoi, ExtendedName, ShortName, Encode, Decode, PointsIntoTable;
    DecodeEncode(h);
  }

  /** The number in a name field, seen by a scanner that reads the header from there on. */
  lemma NumberInHeader(h: Hdr, front: bytes, n: nat, blanks: bytes, tail: bytes)
    requires WellFormed(h) && h.name == front + (Decimal(n) + blanks) + tail
    requires blanks != [] && blanks[0] == ' '
    ensures ScanNumber(CString(Encode(h)[|front|..])) == Scan(true, false, n, |Decimal(n)|)
    ensures Encode(h)[|front| + |Decimal(n)|] == ' '
  {
    var rest := blanks + tail + h.meta + h.size + h.fmag;
    assert Encode(h)[|front|..] == Decimal(n) + rest;
    assert rest[0] == blanks[0];
    ScanInText(n, rest);
    assert Encode(h)[|front|..][|Decimal(n)|] == rest[0];
  }

  lemma ElevenDigits()
    ensures TenTo(11) < TWO63
  {
    TenDigits();
    assert TenTo(11) == 10 * TenTo(10);
    assert TenTo(10) == 100 * TenTo(8) && TenTo(8) == 10000 * TenTo(4) && TenTo(4) == 10000;
  }

  lemma NoSlash(cfg: Config, name: bytes, digits: bytes, blanks: bytes, field: bytes)
    requires ValidConfig(cfg) && |field| == 16 && 1 + |digits| + |blanks| == cfg.maxName
    requires name == [cfg.pad] + (digits + blanks) + field[cfg.maxName..]
    requires forall i :: 0 <= i < |digits| ==> IsDigit(digits[i])
    requires forall i :: 0 <= i < |blanks| ==> blanks[i] == ' '
    ensures PointsIntoTable(name, cfg.maxName)
  {
    assert name[0] == cfg.pad;
    forall i | 0 < i < cfg.maxName
      ensures name[i] != '/'
    {
      assert name[i] == (digits + blanks)[i - 1];
    }
  }

  /** Reading a name that stands behind its header. */
  lemma ReadExtension(cfg: Config, file: bytes, table: Option<bytes>, pos: nat, h: Hdr, field: bytes, name: bytes,
                      size: nat)
    requires ValidConfig(cfg) && HeaderAt(file, pos, h) && |field| == 16
    requires var len := RoundUp4(|name|);
             && len < TWO31 && ScanUnsigned(h.size) == Some(size + len)
             && h.name == Over(field, SpacePad("#1/" + Decimal(len), cfg.maxName))
             && pos + HDR_SIZE + len <= |file|
             && file[pos + HDR_SIZE..pos + HDR_SIZE + len] == name + Fill('\0', len - |name|)
    requires NulFree(name)
    ensures ReadHdr(cfg, file, table, pos)
            == Ok(Elt(name, size, RoundUp4(|name|), 0, pos + HDR_SIZE + RoundUp4(|name|), h))
  {
    hide CString, ScanUnsigned, ReadHdr, Encode, Decode, Decimal, ScanNumber, SpacePad, Over, IsBsd44Name, Atoi;
    hide RoundUp4;
    var len := RoundUp4(|name|);
    ExtensionHeader(cfg, h, field, len);
    PaddedName(name, len - |name|);
    ReadBehindHeader(cfg, file, table, pos, h, len, size);
  }

  /** The header tells how long the name behind it is. */
  lemma ExtensionHeader(cfg: Config, h: Hdr, field: bytes, len: nat)
    requires ValidConfig(cfg) && WellFormed(h) && |field| == 16 && len < TWO31
    requires h.name == Over(field, SpacePad("#1/" + Decimal(len), cfg.maxName))
    ensures IsBsd44Name(h.name) && h.name[0] == '#' && Atoi(Encode(h)[3..]) == len
  {
    LengthPrints(len);
    var blanks := Fill(' ', cfg.maxName - 3 - |Decimal(len)|);
    var tail := field[cfg.maxName..];
    assert SpacePad("#1/" + Decimal(len), cfg.maxName) == "#1/" + (Decimal(len) + blanks);
    assert h.name == "#1/" + (Decimal(len) + blanks) + tail;
    assert h.name == "#1/" + (Decimal(len) + (blanks + tail));
    NumberInHeader(h, "#1/", len, blanks, tail);
    AtoiOf(Encode(h)[3..], len);
    DecimalDigits(len);
    Bsd44Front(h.name, Decimal(len), blanks + tail);
  }

  lemma Bsd44Front(field: bytes, digits: bytes, rest: bytes)
    requires |field| == 16 && field == "#1/" + (digits + rest) && digits != [] && IsDigit(digits[0])
    ensures IsBsd44Name(field) && field[0] == '#'
  {
    assert field[3] == digits[0];
  }

  lemma AtoiOf(s: bytes, n: nat)
    requires n < TWO31 && ScanNumber(CString(s)).magnitude == n
    ensures Atoi(s) == n
  {
  }

  lemma ReadBehindHeader(cfg: Config, file: bytes, table: Option<bytes>, pos: nat, h: Hdr, len: nat, size: nat)
    requires ValidConfig(cfg) && HeaderAt(file, pos, h) && ScanUnsigned(h.size) == Some(size + len)
    requires IsBsd44Name(h.name) && h.name[0] == '#' && Atoi(Encode(h)[3..]) == len
    requires pos + HDR_SIZE + len <= |file|
    ensures ReadHdr(cfg, file, table, pos)
            == Ok(Elt(CString(file[pos + HDR_SIZE..pos + HDR_SIZE + len]), size, len, 0, pos + HDR_SIZE + len, h))
  {
    hide CString, ScanUnsigned, Atoi, ExtendedName, ShortName, Encode, Decode;
    DecodeEncode(h);
  }

  lemma LengthPrints(len: nat)
    requires len < TWO31
    ensures |Decimal(len)| <= 10
  {
    TenDigits();
    DecimalLength(len, 10);
  }

  lemma PaddedName(name: bytes, n: nat)
    requires NulFree(name)
    ensures CString(name + Fill('\0', n)) == name
  {
    IndexOfUnique(name + Fill('\0', n), '\0', |name|);
  }
}
