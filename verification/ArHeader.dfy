/** The 60-byte header of an archive member: its fields, how they are filled in, and how a
    reader takes a member's name and size out of them. */
module ArHeader {
  import opened Bytes

  const ARMAG: bytes := "!<arch>\n"
  const ARMAGT: bytes := "!<thin>\n"
  const ARFMAG: bytes := "`\n"
  const SARMAG: nat := 8
  const HDR_SIZE: nat := 60

  /** `struct ar_hdr`.  The date, owner, group and mode are one opaque field of 32 bytes. */
  datatype Hdr = Hdr(name: bytes, meta: bytes, size: bytes, fmag: bytes)

  predicate WellFormed(h: Hdr) {
    |h.name| == 16 && |h.meta| == 32 && |h.size| == 10 && |h.fmag| == 2
  }

  function Encode(h: Hdr): (r: bytes)
    requires WellFormed(h)
    ensures |r| == HDR_SIZE
  {
    h.name + h.meta + h.size + h.fmag
  }

  function Decode(s: bytes): (h: Hdr)
    requires |s| == HDR_SIZE
    ensures WellFormed(h) && Encode(h) == s
  {
    Hdr(s[..16], s[16..48], s[48..58], s[58..])
  }

  lemma DecodeEncode(h: Hdr)
    requires WellFormed(h)
    ensures Decode(Encode(h)) == h
  {
    var s := Encode(h);
    assert s[..16] == h.name && s[16..48] == h.meta && s[48..58] == h.size && s[58..] == h.fmag;
  }

  /** How an archive of one target lays out names. */
  datatype Style = Coff | Bsd | Bsd44
  /** `pad` and `maxName` are `ar_pad_char` and `ar_max_namelen`; `big` is the byte order of the
      headers of the target. */
  datatype Config = Config(pad: byte, maxName: nat, style: Style, thin: bool, big: bool)

  /** What target vectors hold. */
  predicate ValidConfig(cfg: Config) {
    (cfg.pad == '/' || cfg.pad == ' ') && 14 <= cfg.maxName <= 16
  }

  // ---------------------------------------------------------------------------------------
  // Filling in fields
  // ---------------------------------------------------------------------------------------

  /** `_bfd_ar_spacepad`: text cut or padded with blanks to `n` characters. */
  function SpacePad(text: bytes, n: nat): (r: bytes)
    ensures |r| == n
    ensures |text| <= n ==> r == text + Fill(' ', n - |text|)
  {
    if |text| < n then text + Fill(' ', n - |text|) else text[..n]
  }

  /** `_bfd_ar_sizepad`: a size in at most ten digits, or an error. */
  function SizePad(n: nat): (r: Option<bytes>)
    ensures r.Some? ==> |r.value| == 10
  {
    if |Decimal(n)| > 10 then None else Some(SpacePad(Decimal(n), 10))
  }

  /** The size field holds exactly the sizes below ten to the tenth, and is read back exactly. */
  lemma SizeFieldRoundTrip(n: nat)
    ensures SizePad(n).Some? <==> n < TenTo(10)
    ensures SizePad(n).Some? ==> ScanUnsigned(SizePad(n).value) == Some(n)
  {
    DecimalLength(n, 10);
    if n < TenTo(10) {
      var blanks := Fill(' ', 10 - |Decimal(n)|);
      var field := SizePad(n).value;
      assert field == Decimal(n) + blanks;
      DecimalDigits(n);
      assert '\0' !in Decimal(n) && '\0' !in blanks;
      IndexOfUnique(field, '\0', 10);
      assert CString(field) == field;
      ScanDecimal(n, blanks);
      assert n < TWO64 by { assert TenTo(10) == 100 * TenTo(8) && TenTo(8) == 10000 * TenTo(4) && TenTo(4) == 10000; }
    }
  }

  predicate IsBsd44Name(field: bytes)
    requires |field| >= 4
  {
    field[0] == '#' && field[1] == '1' && field[2] == '/' && IsDigit(field[3])
  }

  // ---------------------------------------------------------------------------------------
  // Reading a header
  // ---------------------------------------------------------------------------------------

  /** The archive element data that reading a header produces.  `data` is where the contents
      start, the `proxy_origin` of the element. */
  datatype Elt = Elt(name: bytes, size: nat, extra: nat, origin: nat, data: nat, hdr: Hdr)
  datatype ReadError = NoMoreFiles | Malformed
  datatype Result<+T> = Ok(value: T) | Err(error: ReadError)

  /** `strtol` with its range check; `None` is a range error.  No digits scan as zero. */
  function StrToL(s: bytes): (r: Option<(int, nat)>)
  {
    var n := ScanNumber(CString(s));
    if n.magnitude >= (if n.negative then TWO63 + 1 else TWO63) then None
    else Some((if n.negative then 0 - n.magnitude else n.magnitude, n.end))
  }

  /** `get_extended_arelt_filename`: the name in the extended name table that the rest of the
      header, read as a number, points at. */
  function ExtendedName(thin: bool, table: bytes, header: bytes): (r: Result<(bytes, nat)>)
    requires |header| == HDR_SIZE
  {
    match StrToL(header[1..])
    case None => Err(Malformed)
    case Some((index, end)) =>
      if index < 0 || index >= |table| then Err(Malformed)
      else
        var name := CString(table[index..]);
        if thin && 1 + end < |header| && header[1 + end] == ':' then
          match StrToL(header[2 + end..])
          case None => Err(Malformed)
          case Some((origin, _)) =>
            // A negative origin is never taken for a nested member.
            Ok((name, if origin < 0 then 0 else origin))
        else Ok((name, 0))
  }

  /** The name in a name field that ends at a NUL, a slash, a blank or its own end. */
  function ShortName(field: bytes): (r: bytes)
  {
    if '\0' in field then field[..IndexOf(field, '\0')]
    else if '/' in field then field[..IndexOf(field, '/')]
    else field[..IndexOf(field, ' ')]
  }

  /** `atoi`, converted to the unsigned type of a name length. */
  function Atoi(s: bytes): (n: nat)
    ensures n < TWO31 || n >= TWO64 - TWO32
  {
    var m := ScanNumber(CString(s)).magnitude;
    var low := (if m < TWO63 then m else TWO63 - 1) % TWO32;
    if low >= TWO31 then low + (TWO64 - TWO32) else low
  }

  predicate PointsIntoTable(field: bytes, maxName: nat)
    requires |field| == 16 && maxName <= 16
  {
    field[0] == '/' || (field[0] == ' ' && '/' !in field[..maxName])
  }

  /** `_bfd_generic_read_ar_hdr` at position `pos`; `table` is the extended name table in
      memory, if there is one. */
  function ReadHdr(cfg: Config, file: bytes, table: Option<bytes>, pos: nat): (r: Result<Elt>)
    requires ValidConfig(cfg)
    ensures r.Ok? ==> pos + HDR_SIZE + r.value.extra == r.value.data <= |file| && r.value.size < TWO64
    ensures r.Ok? ==> WellFormed(r.value.hdr)
  {
    if pos + HDR_SIZE > |file| then Err(NoMoreFiles)
    else
      var header := file[pos..pos + HDR_SIZE];
      var hdr := Decode(header);
      var body := pos + HDR_SIZE;
      var parsed := ScanUnsigned(hdr.size);
      if hdr.fmag != ARFMAG || parsed.None? then Err(Malformed)
      else if PointsIntoTable(hdr.name, cfg.maxName) && table.Some? then
        match ExtendedName(cfg.thin, table.value, header)
        case Err(e) => Err(e)
        case Ok((name, origin)) => Ok(Elt(name, parsed.value, 0, origin, body, hdr))
      else if IsBsd44Name(hdr.name) then
        var namelen := Atoi(header[3..]);
        if namelen > parsed.value || namelen > |file| then Err(Malformed)
        else if body + namelen > |file| then Err(NoMoreFiles)
        else Ok(Elt(CString(file[body..body + namelen]), parsed.value - namelen, namelen, 0,
                    body + namelen, hdr))
      else Ok(Elt(ShortName(hdr.name[..cfg.maxName]), parsed.value, 0, 0, body, hdr))
  }

  /** `bfd_generic_openr_next_archived_file`: where the header after `last` is expected, in
      wrapping 64-bit arithmetic. */
  function NextPos(thin: bool, last: Elt): (r: Result<nat>)
    requires last.data < TWO64
    ensures r.Ok? ==> last.data <= r.value < TWO64
  {
    if thin then Ok(last.data)
    else
      var start := (last.data + last.size) % TWO64;
      var padded := (start + start % 2) % TWO64;
      if padded < last.data then Err(Malformed) else Ok(padded)
  }
}
