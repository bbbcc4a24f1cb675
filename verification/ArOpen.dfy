/** Opening an archive for reading and stepping through its members. */
module ArOpen {
  import opened Bytes
  import opened ArHeader
  import opened ArNames
  import opened ArIndex
  import opened ArSlurp

  // ---------------------------------------------------------------------------------------
  // The symbol index
  // ---------------------------------------------------------------------------------------

  /** What the first name in the file announces. */
  datatype Announced = NoMap | Refused | Map(kind: MapKind)

  /** The name of the index of an ECOFF archive. */
  predicate IsEcoff(name: bytes)
    requires |name| == 16
  {
    && name[..8] == "________"
    && (name[8..10] == "__" || name[8..10] == "64")
    && name[10] == 'E' && (name[11] == 'B' || name[11] == 'L')
    && name[12] == 'E' && (name[13] == 'B' || name[13] == 'L')
    && name[14] == '_' && (name[15] == ' ' || name[15] == 'X')
  }

  /** The choice in `bfd_slurp_armap`. */
  function Announces(file: bytes): Announced
    requires |file| >= SARMAG + 16
  {
    var name := file[SARMAG..SARMAG + 16];
    if name == "__.SYMDEF       " || name == "__.SYMDEF/      " then Map(BsdMap)
    else if name == "/               " then Map(CoffMap)
    else if name == "/SYM64/         " then Map(Map64)
    else if IsEcoff(name) then Refused
    else if name == "#1/20           " then
      if |file| < SARMAG + HDR_SIZE + 20 then Refused
      else if file[SARMAG + HDR_SIZE..SARMAG + HDR_SIZE + 9] == "__.SYMDEF" then Map(BsdMap)
      else NoMap
    else NoMap
  }

  /** The header of a second index, as PE archives have it. */
  predicate IsSecondMap(e: Elt)
    requires WellFormed(e.hdr)
  {
    e.hdr.name[0] == '/' && e.hdr.name[1] == ' '
  }

  /** How far a second index is stepped over; its size is cut to 32 bits. */
  function SecondMapLength(size: nat): (n: nat)
    ensures n < TWO32 && n % 2 == 0
  {
    var n := (size + HDR_SIZE + 1) % TWO64 % TWO32;
    n / 2 * 2
  }

  function BehindSecondMap(cfg: Config, file: bytes, first: nat): nat
    requires ValidConfig(cfg)
  {
    match ReadHdr(cfg, file, None, first)
    case Err(_) => first
    case Ok(e) => if IsSecondMap(e) then first + SecondMapLength(e.size) else first
  }

  /** The index behind the header at the front of the file, and where the next member starts. */
  function ReadMap(cfg: Config, file: bytes, kind: MapKind): (r: Result<(seq<Carsym>, nat)>)
    requires ValidConfig(cfg) && |file| < TWO63
  {
    match ReadHdr(cfg, file, None, SARMAG)
    case Err(e) => Err(e)
    case Ok(e) =>
      if e.data + e.size > |file| then Err(Malformed)
      else
        match Parse(kind, cfg.big, file[e.data..e.data + e.size])
        case None => Err(Malformed)
        case Some(syms) =>
          var first := EvenUp(e.data + e.size);
          Ok((syms, if kind.CoffMap? then BehindSecondMap(cfg, file, first) else first))
  }

  /** `bfd_slurp_armap` */
  function OpenMap(cfg: Config, file: bytes): (r: Result<(Option<seq<Carsym>>, nat)>)
    requires ValidConfig(cfg) && SARMAG <= |file| < TWO63
  {
    if |file| == SARMAG then Ok((None, SARMAG))
    else if |file| < SARMAG + 16 then Err(Malformed)
    else
      match Announces(file)
      case NoMap => Ok((None, SARMAG))
      case Refused => Err(Malformed)
      case Map(kind) =>
        match ReadMap(cfg, file, kind)
        case Err(e) => Err(e)
        case Ok((syms, first)) => Ok((Some(syms), first))
  }

  // ---------------------------------------------------------------------------------------
  // The extended name table
  // ---------------------------------------------------------------------------------------

  predicate AnnouncesTable(file: bytes, first: nat) {
    first + 16 <= |file| &&
    (file[first..first + 16] == "ARFILENAMES/    " || file[first..first + 16] == "//              ")
  }

  /** `_bfd_slurp_extended_name_table` */
  function OpenTable(cfg: Config, file: bytes, first: nat): (r: Result<(Option<bytes>, nat)>)
    requires ValidConfig(cfg) && |file| < TWO63
  {
    if !AnnouncesTable(file, first) then Ok((None, first))
    else
      match ReadHdr(cfg, file, None, first)
      case Err(e) => Err(e)
      case Ok(e) =>
        if e.size > |file| || e.data + e.size > |file| then Err(Malformed)
        else Ok((Some(Rewritten(file[e.data..e.data + e.size])), EvenUp(e.data + e.size)))
  }

  // ---------------------------------------------------------------------------------------
  // Opening
  // ---------------------------------------------------------------------------------------

  /** `struct artdata`, and whether the archive is thin. */
  datatype Artdata = Artdata(thin: bool, symdefs: Option<seq<Carsym>>, table: Option<bytes>, first: nat)

  /** `bfd_generic_archive_p` */
  function Open(cfg0: Config, file: bytes): (r: Result<Artdata>)
    requires ValidConfig(cfg0) && |file| < TWO63
  {
    if |file| < SARMAG || (file[..SARMAG] != ARMAG && file[..SARMAG] != ARMAGT) then Err(Malformed)
    else
      var cfg := cfg0.(thin := file[..SARMAG] == ARMAGT);
      match OpenMap(cfg, file)
      case Err(e) => Err(e)
      case Ok((symdefs, first)) =>
        match OpenTable(cfg, file, first)
        case Err(e) => Err(e)
        case Ok((table, first')) => Ok(Artdata(cfg.thin, symdefs, table, first'))
  }

  // ---------------------------------------------------------------------------------------
  // Stepping through the members
  // ---------------------------------------------------------------------------------------

  /** The elements from position `pos` on: read a header, step behind the contents, until a
      header cannot be read. */
  function Walk(cfg: Config, file: bytes, table: Option<bytes>, pos: nat): seq<Elt>
    requires ValidConfig(cfg) && |file| < TWO63
    decreases if pos <= |file| then |file| - pos else 0
  {
    match ReadHdr(cfg, file, table, pos)
    case Err(_) => []
    case Ok(e) =>
      match NextPos(cfg.thin, e)
      case Err(_) => [e]
      case Ok(next) => [e] + Walk(cfg, file, table, next)
  }

  /** Every step moves forward: for every file and every size a header may hold, the header after
      a header lies behind it, by at least a header, or there is an error. */
  lemma StepsForward(cfg: Config, file: bytes, table: Option<bytes>, pos: nat)
    requires ValidConfig(cfg) && |file| < TWO63
    ensures match ReadHdr(cfg, file, table, pos)
            case Err(_) => true
            case Ok(e) =>
              match NextPos(cfg.thin, e)
              case Err(_) => true
              case Ok(next) => pos + HDR_SIZE <= next
  {
  }

  /** When stepping over a member fails: exactly when its end, made even, is not below 2^64.  The
      one exception is the size that a header spells as minus one: it is stepped over as if the
      member were empty, when its contents start at an even position. */
  lemma NextPosExact(last: Elt)
    requires 0 < last.data < TWO63 && last.size < TWO64
    ensures NextPos(false, last) == Err(Malformed) <==>
            EvenUp(last.data + last.size) >= TWO64 && !(last.size == TWO64 - 1 && last.data % 2 == 0)
    ensures NextPos(false, last).Ok? ==>
            NextPos(false, last).value == if last.size == TWO64 - 1 then last.data else EvenUp(last.data + last.size)
  {
    var sum := last.data + last.size;
    if sum < TWO64 {
      assert sum % TWO64 == sum;
    } else {
      assert sum % TWO64 == sum - TWO64;
      ParityUnshifted(sum);
    }
  }

  lemma ParityUnshifted(n: nat)
    requires n >= TWO64
    ensures (n - TWO64) % 2 == n % 2
  {
  }

  /** A client that asks for one element after the other gets the elements of `Walk`, and comes
      to an end on every file. */
  method ListMembers(cfg: Config, file: bytes, art: Artdata) returns (elts: seq<Elt>)
    requires ValidConfig(cfg) && |file| < TWO63
    ensures elts == Walk(cfg, file, art.table, art.first)
  {
    elts := [];
    var pos := art.first;
    var more := true;
    while more
      invariant more ==> elts + Walk(cfg, file, art.table, pos) == Walk(cfg, file, art.table, art.first)
      invariant !more ==> elts == Walk(cfg, file, art.table, art.first)
      decreases more, if pos <= |file| then |file| - pos else 0
    {
      hide ReadHdr;
      match ReadHdr(cfg, file, art.table, pos)
      case Err(_) => more := false;
      case Ok(e) =>
        elts := elts + [e];
        match NextPos(cfg.thin, e)
        case Err(_) => more := false;
        case Ok(next) =>
          Regroup(elts[..|elts| - 1], [e], Walk(cfg, file, art.table, next));
          pos := next;
    }
  }

  /** An archive open for reading. */
  class InputArchive {
    const cfg: Config
    const file: bytes
    var thin: bool
    var symdefs: Option<seq<Carsym>>
    var table: Option<bytes>
    var first: nat

    constructor (cfg: Config, file: bytes)
      ensures this.cfg == cfg && this.file == file && table == None && symdefs == None
    {
      this.cfg, this.file := cfg, file;
      thin, symdefs, table, first := false, None, None, SARMAG;
    }

    ghost function Data(): Artdata
      reads this
    {
      Artdata(thin, symdefs, table, first)
    }

    /** `bfd_slurp_armap` */
    method SlurpMap() returns (ok: bool)
      requires ValidConfig(cfg) && SARMAG <= |file| < TWO63 && first == SARMAG && symdefs == None
      modifies this`symdefs, this`first
      ensures ok <==> OpenMap(cfg.(thin := thin), file).Ok?
      ensures ok ==> (symdefs, first) == OpenMap(cfg.(thin := thin), file).value
    {
      hide ReadHdr, Parse, Announces, BehindSecondMap;
      if |file| == SARMAG {
        return true;
      }
      if |file| < SARMAG + 16 {
        return false;
      }
      match Announces(file)
      case NoMap => ok := true;
      case Refused => ok := false;
      case Map(kind) =>
        var c := cfg.(thin := thin);
        match ReadHdr(c, file, None, SARMAG)
        case Err(_) => ok := false;
        case Ok(e) =>
          if e.data + e.size > |file| {
            return false;
          }
          var syms := SlurpBody(kind, cfg.big, file[e.data..e.data + e.size]);
          if syms.None? {
            return false;
          }
          first := e.data + e.size;
          first := first + first % 2;
          if kind.CoffMap? { first := BehindSecondMap(c, file, first); }
          symdefs := syms;
          ok := true;
    }

    /** `_bfd_slurp_extended_name_table` */
    method SlurpTable() returns (ok: bool)
      requires ValidConfig(cfg) && |file| < TWO63 && table == None
      modifies this`table, this`first
      ensures ok <==> OpenTable(cfg.(thin := thin), file, old(first)).Ok?
      ensures ok ==> (table, first) == OpenTable(cfg.(thin := thin), file, old(first)).value
    {
      hide ReadHdr, RewrittenByte;
      if !AnnouncesTable(file, first) {
        return true;
      }
      match ReadHdr(cfg.(thin := thin), file, None, first)
      case Err(_) => ok := false;
      case Ok(e) =>
        if e.size > |file| || e.data + e.size > |file| {
          return false;
        }
        var body := file[e.data..e.data + e.size];
        var names := new byte[e.size](i requires 0 <= i < |body| => body[i]);
        assert names[..] == body;
        RewriteTable(names);
        table := Some(names[..]);
        first := e.data + e.size;
        first := first + first % 2;
        ok := true;
    }

    /** `bfd_generic_archive_p` */
    method CheckFormat() returns (ok: bool)
      requires ValidConfig(cfg) && |file| < TWO63 && table == None && symdefs == None
      modifies this
      ensures ok <==> Open(cfg, file).Ok?
      ensures ok ==> Data() == Open(cfg, file).value
    {
      hide OpenMap, OpenTable;
      if |file| < SARMAG {
        return false;
      }
      var armag := file[..SARMAG];
      thin := armag == ARMAGT;
      if armag != ARMAG && !thin {
        return false;
      }
      first := SARMAG;
      ok := SlurpMap();
      if ok {
        ok := SlurpTable();
      }
    }
  }
}
