/** The elements of an archive open for reading, and the cache that hands out the same element for
    the same position. */
module ArCache {
  import opened Bytes
  import opened ArHeader
  import ArOpen

  /** A member opened as a file of its own. */
  class Element {
    const data: Elt
    /** `proxy_origin`: the position behind the header. */
    const proxyOrigin: nat
    /** `parent_cache` and `key` */
    var parent: Archive?
    var key: nat
    var noExport: bool
    /** Where in the archive the header was read. */
    ghost const at: nat

    constructor (data: Elt, at: nat)
      ensures this.data == data && this.at == at && proxyOrigin == data.data && parent == null
    {
      this.data, this.at := data, at;
      proxyOrigin := data.data;
      parent, key, noExport := null, 0, false;
    }
  }

  class Archive {
    const cfg: Config
    const file: bytes
    const table: Option<bytes>
    const first: nat
    /** The hash table of cached elements by file position; `None` until the first insertion. */
    var cache: Option<map<nat, Element>>
    var noElementCache: bool
    var noExport: bool
    /** The elements that were handed out and are not closed yet. */
    ghost var live: set<Element>

    constructor (cfg: Config, file: bytes, table: Option<bytes>, first: nat)
      requires ValidConfig(cfg) && |file| < TWO63
      ensures Valid() && live == {} && cache == None && !noElementCache
      ensures this.cfg == cfg && this.file == file && this.table == table && this.first == first
    {
      this.cfg, this.file, this.table, this.first := cfg, file, table, first;
      cache, noElementCache, noExport, live := None, false, false, {};
    }

    function Cached(): (m: map<nat, Element>)
      reads this
    {
      if cache.Some? then cache.value else map[]
    }

    /** What the file holds at a position. */
    function Header(pos: nat): Result<Elt>
      requires ValidConfig(cfg) && |file| < TWO63
    {
      ReadHdr(cfg, file, table, pos)
    }

    /** An element that was handed out: it has what the file holds at its position, and if it knows
        a cache then the cache knows it, in the slot of its key. */
    ghost predicate Handed(b: Element)
      requires ValidConfig(cfg) && |file| < TWO63
      reads this, b
    {
      && Header(b.at) == Ok(b.data) && b.proxyOrigin == b.data.data
      && (b.parent != null ==> b.parent == this && b.key == b.at && b.key in Cached() && Cached()[b.key] == b)
    }

    ghost predicate Valid()
      reads this, live
    {
      && ValidConfig(cfg) && |file| < TWO63
      && (forall b <- live :: Handed(b))
      && (forall k <- Cached() :: Cached()[k] in live && Cached()[k].parent == this && Cached()[k].key == k)
    }

    /** `_bfd_look_for_bfd_in_cache` */
    method LookFor(pos: nat) returns (r: Element?)
      requires Valid()
      modifies live`noExport
      ensures Valid()
      ensures r == if pos in Cached() then Cached()[pos] else null
      ensures r != null ==> r in live && r.key == pos && r.noExport == noExport && Header(pos) == Ok(r.data)
    {
      hide ReadHdr;
      r := null;
      if cache.Some? && pos in cache.value {
        r := cache.value[pos];
        assert r == Cached()[pos];
        r.noExport := noExport;
      }
    }

    /** `_bfd_add_bfd_to_archive_cache` */
    method Add(pos: nat, elt: Element)
      requires Valid() && elt !in live && elt.parent == null && elt.at == pos && pos !in Cached()
      requires Header(pos) == Ok(elt.data) && elt.proxyOrigin == elt.data.data
      modifies this`cache, this`live, elt`parent, elt`key
      ensures Valid() && live == old(live) + {elt}
      ensures cache.Some? && Cached() == old(Cached())[pos := elt] && elt.parent == this && elt.key == pos
    {
      hide ReadHdr;
      if cache.None? { cache := Some(map[]); }
      cache := Some(cache.value[pos := elt]);
      elt.parent, elt.key := this, pos;
      live := live + {elt};
    }

    /** Whether an element can be opened at a position: its header can be read and, in a thin
        archive, the header does not lead into another archive and the file it names is there. */
    predicate Openable(pos: nat, present: bool)
      requires ValidConfig(cfg) && |file| < TWO63
    {
      match Header(pos)
      case Err(_) => false
      case Ok(e) => cfg.thin ==> e.origin == 0 && present
    }

    /** `_bfd_get_elt_at_filepos`.  `present` says whether the file that a thin member names can be
        opened.  On a hit nothing is read, yet the element is the one reading would give. */
    method GetAt(pos: nat, present: bool) returns (r: Element?)
      requires Valid()
      modifies this`cache, this`live, live`noExport
      ensures Valid() && old(live) <= live && noElementCache == old(noElementCache)
      ensures r != null ==> r in live && r.at == pos && Header(pos) == Ok(r.data)
      ensures pos in old(Cached()) ==> r == old(Cached())[pos] && live == old(live) && cache == old(cache)
      ensures pos !in old(Cached()) ==> (r != null <==> Openable(pos, present))
      ensures pos !in old(Cached()) && r != null ==> fresh(r) && live == old(live) + {r}
      ensures pos !in old(Cached()) && r != null && !noElementCache ==>
                Cached() == old(Cached())[pos := r] && r.parent == this
      ensures pos !in old(Cached()) && (r == null || noElementCache) ==>
                cache == old(cache) && (r != null ==> r.parent == null)
      ensures r == null ==> live == old(live)
    {
      hide ReadHdr;
      r := LookFor(pos);
      if r != null {
        return;
      }
      match Header(pos)
      case Err(_) =>
      case Ok(e) =>
        if cfg.thin && (e.origin > 0 || !present) {
          return;
        }
        r := new Element(e, pos);
        if noElementCache {
          live := live + {r};
        } else {
          Add(pos, r);
        }
    }

    /** Where the element behind `last` starts, or the first one. */
    function NextStart(last: Element?): Result<nat>
      requires last != null ==> last.data.data < TWO64
    {
      if last == null then Ok(first) else NextPos(cfg.thin, last.data)
    }

    /** `bfd_generic_openr_next_archived_file` */
    method OpenNext(last: Element?, present: bool) returns (r: Element?)
      requires Valid() && (last != null ==> last in live)
      modifies this`cache, this`live, live`noExport
      ensures Valid() && old(live) <= live
      ensures r != null ==> r in live && Header(r.at) == Ok(r.data)
      ensures r != null && last == null ==> r.at == first
      ensures r != null && last != null ==> NextPos(cfg.thin, last.data) == Ok(r.at) && last.at + HDR_SIZE <= r.at
      ensures r != null <==>
                match NextStart(last)
                case Err(_) => false
                case Ok(pos) => pos in old(Cached()) || Openable(pos, present)
    {
      hide ReadHdr, NextPos;
      if last == null {
        r := GetAt(first, present);
      } else {
        assert Handed(last);
        ArOpen.StepsForward(cfg, file, table, last.at);
        match NextPos(cfg.thin, last.data)
        case Err(_) => r := null;
        case Ok(start) => r := GetAt(start, present);
      }
    }

    /** `_bfd_unlink_from_archive_parent`, when an element is closed.  The slot found is that of
        this element, and no other slot changes. */
    method Close(elt: Element)
      requires Valid() && elt in live
      modifies this`cache, this`live
      ensures Valid() && live == old(live) - {elt}
      ensures elt.parent != null ==> elt.key in old(Cached()) && Cached() == old(Cached()) - {elt.key}
      ensures elt.parent == null ==> cache == old(cache)
    {
      hide ReadHdr, Header;
      if elt.parent != null {
        assert Handed(elt);
        if elt.key in Cached() {
          assert Cached()[elt.key] == elt;
          cache := Some(cache.value - {elt.key});
        }
      }
      live := live - {elt};
      forall b <- live
        ensures Handed(b)
      {
        assert old(Handed(b));
      }
      forall k <- Cached()
        ensures Cached()[k] in live && Cached()[k].parent == this && Cached()[k].key == k
      {
        assert k in old(Cached()) && Cached()[k] == old(Cached())[k];
      }
    }

    /** The part of `_bfd_archive_close_and_cleanup` that closes what is cached: in the end only
        elements that were handed out past the cache are still open. */
    method CloseAll()
      requires Valid()
      modifies this`cache, this`live
      ensures Valid() && cache == None
      ensures live == set b | b in old(live) && b.parent == null
    {
      hide ReadHdr, Header;
      ghost var uncached := set b | b in live && b.parent == null;
      while Cached() != map[]
        invariant Valid() && uncached <= live <= old(live)
        decreases |Cached()|
      {
        var k :| k in Cached();
        Close(Cached()[k]);
      }
      forall b <- live
        ensures b in uncached
      {
        assert Handed(b);
      }
      cache := None;
    }

    /** At any time at most one cached element is open for one position. */
    lemma OnePerPosition(a: Element, b: Element)
      requires Valid() && a in live && b in live && a.parent != null && b.parent != null && a.at == b.at
      ensures a == b
    {
      assert Handed(a) && Handed(b);
    }

    method Switch(on: bool)
      requires Valid()
      modifies this`noElementCache
      ensures Valid() && noElementCache == !on
    {
      hide ReadHdr, Header;
      noElementCache := !on;
      forall b <- live
        ensures Handed(b)
      {
        assert old(Handed(b));
      }
      assert Cached() == old(Cached());
    }

    /** One operation: a lookup, the closing of an element that is still open, or a switch. */
    method Perform(ops: seq<Op>, n: nat, got: seq<Element?>, open: set<Element>, ghost on: bool)
      returns (r: Element?, open': set<Element>)
      requires Valid() && |got| == n < |ops| && open == live && noElementCache == !CachingAt(ops, on, n)
      modifies this`cache, this`live, this`noElementCache, live`noExport
      ensures Valid() && open' == live && noElementCache == !CachingAt(ops, on, n + 1)
      ensures fresh(live - old(live))
      ensures ops[n].Get? && r != null ==> r.at == ops[n].pos && Header(ops[n].pos) == Ok(r.data)
      ensures ops[n].Get? && r == null ==> !Openable(ops[n].pos, ops[n].present)
      ensures CacheStep(ops[n], got, r, CachingAt(ops, on, n), old(Cached()), Cached())
    {
      hide ReadHdr, Openable;
      r, open' := null, open;
      match ops[n] {
        case Get(pos, present) =>
          r := GetAt(pos, present);
          if r != null { open' := open + {r}; }
        case Drop(which) =>
          if which < n && got[which] != null && got[which] in open {
            assert Handed(got[which]);
            Close(got[which]);
            open' := open - {got[which]};
          }
        case Caching(on) => Switch(on);
      }
    }

    /** Any run of lookups, closes and switches of the caching flag.  Whatever came before, a lookup
        gives what reading the header again would give; and an element that was looked up with caching
        on is given again for its position until it is closed. */
    method Run(ops: seq<Op>) returns (got: seq<Element?>)
      requires Valid() && live == {} && cache == None
      modifies this
      ensures Valid() && |got| == |ops|
      ensures forall i :: 0 <= i < |ops| && ops[i].Get? && got[i] != null ==>
                got[i].at == ops[i].pos && Header(ops[i].pos) == Ok(got[i].data)
      ensures forall i :: 0 <= i < |ops| && ops[i].Get? && got[i] == null ==> !Openable(ops[i].pos, ops[i].present)
      ensures var on := !old(noElementCache);
              forall i, j :: 0 <= i < j < |ops| && Remembered(ops, got, on, i, j) && Again(ops, i, j) ==>
                got[j] == got[i]
    {
      hide ReadHdr, Openable, Remembered;
      got := [];
      var open: set<Element> := {};
      ghost var on := !noElementCache;
      for n := 0 to |ops|
        invariant Valid() && |got| == n && open == live && fresh(live) && noElementCache == !CachingAt(ops, on, n)
        invariant forall i :: 0 <= i < n && ops[i].Get? && got[i] != null ==>
                    got[i].at == ops[i].pos && Header(ops[i].pos) == Ok(got[i].data)
        invariant forall i :: 0 <= i < n && ops[i].Get? && got[i] == null ==> !Openable(ops[i].pos, ops[i].present)
        invariant Remembers(ops, got, on, Cached())
        invariant forall i, j :: 0 <= i < j < n && Remembered(ops, got, on, i, j) && Again(ops, i, j) ==>
                    got[j] == got[i]
      {
        ghost var before, cached := got, Cached();
        var r;
        r, open := Perform(ops, n, got, open, on);
        got := got + [r];
        StillRemembers(ops, before, r, on, cached, Cached());
        forall i, j | 0 <= i < j <= n && Remembered(ops, got, on, i, j) && Again(ops, i, j)
          ensures got[j] == got[i]
        {
          RememberedBefore(ops, before, r, on, i, j);
        }
      }
    }
  }

  /** What a client does. */
  datatype Op = Get(pos: nat, present: bool) | Drop(which: nat) | Caching(on: bool)

  /** Whether caching is on in front of operation `n`. */
  function CachingAt(ops: seq<Op>, on: bool, n: nat): bool
    requires n <= |ops|
  {
    if n == 0 then on else if ops[n - 1].Caching? then ops[n - 1].on else CachingAt(ops, on, n - 1)
  }

  /** Operation `i` found an element with caching on, and it was not closed in front of operation `j`. */
  ghost predicate Remembered(ops: seq<Op>, got: seq<Element?>, on: bool, i: nat, j: nat)
    requires i < j <= |ops| && j <= |got|
  {
    && ops[i].Get? && got[i] != null && CachingAt(ops, on, i)
    && forall n :: i < n < j && ops[n].Drop? && ops[n].which < n ==> got[ops[n].which] != got[i]
  }

  /** What was looked up with caching on and not closed since is in the cache. */
  ghost predicate Remembers(ops: seq<Op>, got: seq<Element?>, on: bool, cached: map<nat, Element>)
    requires |got| <= |ops|
  {
    forall i :: 0 <= i < |got| && Remembered(ops, got, on, i, |got|) ==>
      ops[i].pos in cached && cached[ops[i].pos] == got[i]
  }

  /** What one operation with result `r` does to the cache. */
  ghost predicate CacheStep(op: Op, got: seq<Element?>, r: Element?, caching: bool,
                            before: map<nat, Element>, after: map<nat, Element>) {
    match op
    case Get(pos, _) =>
      if pos in before then r == before[pos] && after == before
      else after == if r != null && caching then before[pos := r] else before
    case Drop(which) =>
      || after == before
      || exists k <- before :: which < |got| && got[which] == before[k] && after == before - {k}
    case Caching(_) => after == before
  }

  /** Operation `j` looks up the same position as operation `i`. */
  predicate Again(ops: seq<Op>, i: nat, j: nat)
    requires i < |ops| && j < |ops|
  {
    ops[i].Get? && ops[j].Get? && ops[j].pos == ops[i].pos
  }

  lemma RememberedBefore(ops: seq<Op>, got: seq<Element?>, r: Element?, on: bool, i: nat, j: nat)
    requires i < j <= |got| < |ops| && Remembered(ops, got + [r], on, i, j)
    ensures Remembered(ops, got, on, i, j)
  {
    forall n | i < n < j && ops[n].Drop? && ops[n].which < n
      ensures got[ops[n].which] != got[i]
    {
      assert (got + [r])[ops[n].which] == got[ops[n].which];
    }
  }

  /** What is remembered behind an operation was so in front of it, and was not closed by it. */
  lemma StillRemembered(ops: seq<Op>, got: seq<Element?>, r: Element?, on: bool, i: nat)
    requires i <= |got| < |ops| && Remembered(ops, got + [r], on, i, |got| + 1)
    ensures ops[i].Get? && (i < |got| ==> Remembered(ops, got, on, i, |got|))
    ensures i < |got| && ops[|got|].Drop? && ops[|got|].which < |got| ==> got[ops[|got|].which] != got[i]
    ensures i == |got| ==> r != null && CachingAt(ops, on, i)
  {
    var n := |got|;
    if i < n {
      assert Remembered(ops, got + [r], on, i, n);
      RememberedBefore(ops, got, r, on, i, n);
      if ops[n].Drop? && ops[n].which < n { assert (got + [r])[ops[n].which] == got[ops[n].which]; }
    }
  }

  lemma StillRemembers(ops: seq<Op>, got: seq<Element?>, r: Element?, on: bool,
                       before: map<nat, Element>, after: map<nat, Element>)
    requires |got| < |ops| && Remembers(ops, got, on, before)
    requires CacheStep(ops[|got|], got, r, CachingAt(ops, on, |got|), before, after)
    ensures Remembers(ops, got + [r], on, after)
  {
    hide Remembered;
    forall i | 0 <= i <= |got| && Remembered(ops, got + [r], on, i, |got| + 1)
      ensures ops[i].Get? && ops[i].pos in after && after[ops[i].pos] == (got + [r])[i]
    {
      StillRemembered(ops, got, r, on, i);
    }
  }
}
