/** The list of sections of a file: a doubly linked list whose sections keep stale pointers when they
    are taken out. */
module SectionList {
  class Section {
    var next: Section?
    var prev: Section?

    constructor ()
      ensures next == null && prev == null
    {
      next, prev := null, null;
    }
  }

  // ---------------------------------------------------------------------------------------
  // Sequences of sections
  // ---------------------------------------------------------------------------------------

  function Nth(list: seq<Section>, i: int): (s: Section?)
    ensures s != null ==> s in list
  {
    if 0 <= i < |list| then list[i] else null
  }

  predicate Distinct(list: seq<Section>) {
    forall i, j :: 0 <= i < j < |list| ==> list[i] != list[j]
  }

  /** The sequence with `s` put in at `k`. */
  function Inserted(list: seq<Section>, k: nat, s: Section): (r: seq<Section>)
    requires k <= |list|
    ensures |r| == |list| + 1
    ensures s in r && (forall x <- r :: x in list || x == s) && (forall x <- list :: x in r)
  {
    assert list == list[..k] + list[k..];
    list[..k] + [s] + list[k..]
  }

  /** The sequence with its element `k` taken out. */
  function Without(list: seq<Section>, k: nat): (r: seq<Section>)
    requires k < |list|
    ensures |r| == |list| - 1
    ensures (forall x <- r :: x in list) && (forall x <- list :: x in r || x == list[k])
  {
    assert list == list[..k] + [list[k]] + list[k + 1..];
    list[..k] + list[k + 1..]
  }

  lemma InsertedNth(list: seq<Section>, k: nat, s: Section, i: int)
    requires k <= |list|
    ensures Nth(Inserted(list, k, s), i) == if i < k then Nth(list, i) else if i == k then s else Nth(list, i - 1)
  {
  }

  lemma WithoutNth(list: seq<Section>, k: nat, i: int)
    requires k < |list|
    ensures Nth(Without(list, k), i) == if i < k then Nth(list, i) else Nth(list, i + 1)
  {
  }

  lemma InsertedDistinct(list: seq<Section>, k: nat, s: Section)
    requires k <= |list| && Distinct(list) && s !in list
    ensures Distinct(Inserted(list, k, s))
  {
  }

  lemma WithoutDistinct(list: seq<Section>, k: nat)
    requires k < |list| && Distinct(list)
    ensures Distinct(Without(list, k)) && list[k] !in Without(list, k)
  {
  }

  lemma NthDiffers(list: seq<Section>, i: int, j: int)
    requires Distinct(list)
    ensures i == j || Nth(list, i) == null || Nth(list, i) != Nth(list, j)
  {
  }

  /** One edit of the list; sections in it are named by their positions. */
  datatype Op = AppendOp(s: Section) | PrependOp(s: Section) | AfterOp(k: nat, s: Section)
                | BeforeOp(k: nat, s: Section) | RemoveOp(k: nat)

  predicate Applies(list: seq<Section>, op: Op) {
    match op
    case AppendOp(s) => s !in list
    case PrependOp(s) => s !in list
    case AfterOp(k, s) => k < |list| && s !in list
    case BeforeOp(k, s) => k < |list| && s !in list
    case RemoveOp(k) => k < |list|
  }

  function Edited(list: seq<Section>, op: Op): seq<Section>
    requires Applies(list, op)
  {
    match op
    case AppendOp(s) => Inserted(list, |list|, s)
    case PrependOp(s) => Inserted(list, 0, s)
    case AfterOp(k, s) => Inserted(list, k + 1, s)
    case BeforeOp(k, s) => Inserted(list, k, s)
    case RemoveOp(k) => Without(list, k)
  }

  /** The first `n` edits can be made one after the other. */
  predicate AllApply(list: seq<Section>, ops: seq<Op>, n: nat)
    requires n <= |ops|
    decreases n, 0
  {
    n == 0 || (AllApply(list, ops, n - 1) && Applies(EditedBy(list, ops, n - 1), ops[n - 1]))
  }

  function EditedBy(list: seq<Section>, ops: seq<Op>, n: nat): seq<Section>
    requires n <= |ops| && AllApply(list, ops, n)
    decreases n, 1
  {
    if n == 0 then list else Edited(EditedBy(list, ops, n - 1), ops[n - 1])
  }

  lemma {:induction false} ApplyPrefix(list: seq<Section>, ops: seq<Op>, n: nat, m: nat)
    requires n <= m <= |ops| && AllApply(list, ops, m)
    ensures AllApply(list, ops, n)
    decreases m
  {
    if n < m { ApplyPrefix(list, ops, n, m - 1); }
  }

  lemma NothingUsed()
    ensures Used([]) == {}
  {
  }

  lemma UsedNext(ops: seq<Op>, n: nat)
    requires n < |ops|
    ensures !ops[n].RemoveOp? ==> ops[n].s in Used(ops) && Used(ops[..n + 1]) == Used(ops[..n]) + {ops[n].s}
    ensures ops[n].RemoveOp? ==> Used(ops[..n + 1]) == Used(ops[..n])
    ensures Used(ops[..n]) <= Used(ops)
  {
    assert ops[..n + 1] == ops[..n] + [ops[n]];
  }

  function Used(ops: seq<Op>): set<Section> {
    set op <- ops | !op.RemoveOp? :: op.s
  }

  // ---------------------------------------------------------------------------------------
  // Pointers
  // ---------------------------------------------------------------------------------------

  /** The pointers of all sections that ever were in the list, and of the file. */
  datatype Pointers = Pointers(next: map<Section, Section?>, prev: map<Section, Section?>, first: Section?,
                               last: Section?)

  /** The sections and pointers that belong together. */
  predicate Closed(p: Pointers, list: seq<Section>) {
    && p.next.Keys == p.prev.Keys && (forall s <- list :: s in p.next) && Distinct(list)
    && (forall s <- p.next :: p.next[s] != null ==> p.next[s] in p.next)
  }

  predicate LinkAt(p: Pointers, list: seq<Section>, i: int)
    requires Closed(p, list) && 0 <= i < |list|
  {
    p.next[list[i]] == Nth(list, i + 1) && p.prev[list[i]] == Nth(list, i - 1)
  }

  /** Following the pointers gives the sequence, in both directions. */
  predicate Represents(p: Pointers, list: seq<Section>) {
    && Closed(p, list) && p.first == Nth(list, 0) && p.last == Nth(list, |list| - 1)
    && forall i :: 0 <= i < |list| ==> LinkAt(p, list, i)
  }

  /** No section points back to one that is not in the list but points to it. */
  predicate NoEcho(p: Pointers, list: seq<Section>)
    requires Closed(p, list)
  {
    forall s <- p.next :: s !in list && p.next[s] != null ==> p.prev[p.next[s]] != s
  }

  /** The assignments that put `s` between its neighbours. */
  function Spliced(p: Pointers, before: Section?, s: Section, after: Section?): Pointers {
    Pointers(if before == null then p.next[s := after] else p.next[s := after][before := s],
             if after == null then p.prev[s := before] else p.prev[s := before][after := s],
             if before == null then s else p.first, if after == null then s else p.last)
  }

  /** Putting a section between two neighbours inserts it in the sequence, and makes no pointer of a
      removed section look current. */
  lemma SplicedRepresents(p: Pointers, list: seq<Section>, k: nat, s: Section)
    requires Represents(p, list) && NoEcho(p, list) && k <= |list| && s !in list
    ensures var q := Spliced(p, Nth(list, k - 1), s, Nth(list, k));
            Represents(q, Inserted(list, k, s)) && NoEcho(q, Inserted(list, k, s))
  {
    hide Inserted, Distinct;
    var before, after, more := Nth(list, k - 1), Nth(list, k), Inserted(list, k, s);
    var q := Spliced(p, before, s, after);
    InsertedDistinct(list, k, s);
    InsertedNth(list, k, s, 0);
    InsertedNth(list, k, s, |list|);
    assert Closed(q, more);
    forall i | 0 <= i < |more|
      ensures LinkAt(q, more, i)
    {
      SplicedAt(p, list, k, s, i);
    }
  }

  lemma SplicedAt(p: Pointers, list: seq<Section>, k: nat, s: Section, i: nat)
    requires Represents(p, list) && k <= |list| && s !in list && i <= |list|
    requires Closed(Spliced(p, Nth(list, k - 1), s, Nth(list, k)), Inserted(list, k, s))
    ensures LinkAt(Spliced(p, Nth(list, k - 1), s, Nth(list, k)), Inserted(list, k, s), i)
  {
    hide Inserted, Distinct;
    InsertedNth(list, k, s, i - 1);
    InsertedNth(list, k, s, i);
    InsertedNth(list, k, s, i + 1);
    if i != k {
      var j := if i < k then i else i - 1;
      assert LinkAt(p, list, j);
      NthDiffers(list, j, k - 1);
      NthDiffers(list, j, k);
    }
  }

  /** The assignments that join the neighbours of a section. */
  function Joined(p: Pointers, before: Section?, after: Section?): Pointers {
    Pointers(if before == null then p.next else p.next[before := after],
             if after == null then p.prev else p.prev[after := before],
             if before == null then after else p.first, if after == null then before else p.last)
  }

  /** Joining the neighbours takes a section out of the sequence; its own pointers become stale. */
  lemma JoinedRepresents(p: Pointers, list: seq<Section>, k: nat)
    requires Represents(p, list) && NoEcho(p, list) && k < |list|
    ensures var q := Joined(p, Nth(list, k - 1), Nth(list, k + 1));
            Represents(q, Without(list, k)) && NoEcho(q, Without(list, k))
  {
    hide Without, Distinct;
    var before, after, fewer := Nth(list, k - 1), Nth(list, k + 1), Without(list, k);
    var q := Joined(p, before, after);
    WithoutDistinct(list, k);
    WithoutNth(list, k, 0);
    WithoutNth(list, k, |list| - 2);
    NthDiffers(list, k, k - 1);
    assert LinkAt(p, list, k);
    assert Closed(q, fewer);
    forall i | 0 <= i < |fewer|
      ensures LinkAt(q, fewer, i)
    {
      JoinedAt(p, list, k, i);
    }
  }

  lemma JoinedAt(p: Pointers, list: seq<Section>, k: nat, i: nat)
    requires Represents(p, list) && k < |list| && i < |list| - 1
    requires Closed(Joined(p, Nth(list, k - 1), Nth(list, k + 1)), Without(list, k))
    ensures LinkAt(Joined(p, Nth(list, k - 1), Nth(list, k + 1)), Without(list, k), i)
  {
    hide Without, Distinct;
    WithoutNth(list, k, i - 1);
    WithoutNth(list, k, i);
    WithoutNth(list, k, i + 1);
    var j := if i < k then i else i + 1;
    assert LinkAt(p, list, j);
    NthDiffers(list, j, k - 1);
    NthDiffers(list, j, k + 1);
  }

  // ---------------------------------------------------------------------------------------
  // The list
  // ---------------------------------------------------------------------------------------

  class Bfd {
    var sections: Section?
    var sectionLast: Section?
    /** The sections in order, and all sections that ever were in the list. */
    ghost var list: seq<Section>
    ghost var ever: set<Section>

    constructor ()
      ensures Valid() && list == [] && ever == {}
    {
      sections, sectionLast, list, ever := null, null, [], {};
    }

    ghost function Nexts(): map<Section, Section?>
      reads this`ever, ever`next
    {
      map s | s in ever :: s.next
    }

    ghost function Prevs(): map<Section, Section?>
      reads this`ever, ever`prev
    {
      map s | s in ever :: s.prev
    }

    ghost function State(): Pointers
      reads this, ever
    {
      Pointers(Nexts(), Prevs(), sections, sectionLast)
    }

    /** The pointers represent the list, and no pointer of a removed section looks current. */
    ghost predicate Valid()
      reads this, ever
    {
      Represents(State(), list) && NoEcho(State(), list)
    }

    lemma Ends()
      requires Valid()
      ensures sections == Nth(list, 0) && sectionLast == Nth(list, |list| - 1)
      ensures forall s <- list :: s in ever
    {
    }

    lemma Neighbours(k: nat)
      requires Valid() && k < |list|
      ensures list[k] in ever && list[k].next == Nth(list, k + 1) && list[k].prev == Nth(list, k - 1)
    {
      assert LinkAt(State(), list, k);
    }

    /** One pointer of one section. */
    method SetNext(s: Section, v: Section?)
      requires s in ever
      modifies s`next
      ensures Nexts() == old(Nexts())[s := v] && s.next == v
    {
      s.next := v;
      assert Nexts() == old(Nexts())[s := v];
    }

    method SetPrev(s: Section, v: Section?)
      requires s in ever
      modifies s`prev
      ensures Prevs() == old(Prevs())[s := v] && s.prev == v
    {
      s.prev := v;
      assert Prevs() == old(Prevs())[s := v];
    }

    /** A section comes to be known. */
    ghost method Adopt(s: Section)
      modifies this`ever
      ensures ever == old(ever) + {s}
      ensures Nexts() == old(Nexts())[s := s.next] && Prevs() == old(Prevs())[s := s.prev]
    {
      ever := ever + {s};
      assert Nexts() == old(Nexts())[s := s.next];
      assert Prevs() == old(Prevs())[s := s.prev];
    }

    /** `bfd_section_list_append` */
    method Append(s: Section)
      requires Valid() && s !in list
      modifies this, ever, s
      ensures Valid() && list == Inserted(old(list), |old(list)|, s) && ever == old(ever) + {s}
    {
      hide Represents, NoEcho, Inserted, Nth, Closed, Nexts, Prevs;
      Ends();
      NothingAt(list);
      SplicedRepresents(State(), list, |list|, s);
      Adopt(s);
      SetNext(s, null);
      if sectionLast != null {
        SetPrev(s, sectionLast);
        SetNext(sectionLast, s);
      } else {
        SetPrev(s, null);
        sections := s;
      }
      sectionLast := s;
      list := Inserted(list, |list|, s);
      Overwritten(old(Nexts()), s, old(s.next), s.next);
      Overwritten(old(Prevs()), s, old(s.prev), s.prev);
    }

    /** `bfd_section_list_prepend` */
    method Prepend(s: Section)
      requires Valid() && s !in list
      modifies this, ever, s
      ensures Valid() && list == Inserted(old(list), 0, s) && ever == old(ever) + {s}
    {
      hide Represents, NoEcho, Inserted, Nth, Closed, Nexts, Prevs;
      Ends();
      NothingAt(list);
      SplicedRepresents(State(), list, 0, s);
      Adopt(s);
      SetPrev(s, null);
      if sections != null {
        SetNext(s, sections);
        SetPrev(sections, s);
      } else {
        SetNext(s, null);
        sectionLast := s;
      }
      sections := s;
      list := Inserted(list, 0, s);
      Overwritten(old(Nexts()), s, old(s.next), s.next);
      Overwritten(old(Prevs()), s, old(s.prev), s.prev);
    }

    /** `bfd_section_list_insert_after` */
    method InsertAfter(a: Section, s: Section, ghost k: nat)
      requires Valid() && k < |list| && list[k] == a && s !in list
      modifies this, ever, s
      ensures Valid() && list == Inserted(old(list), k + 1, s) && ever == old(ever) + {s}
    {
      hide Represents, NoEcho, Inserted, Nth, Closed, Nexts, Prevs;
      Ends();
      Neighbours(k);
      IsNth(list, k);
      SplicedRepresents(State(), list, k + 1, s);
      var next := a.next;
      Adopt(s);
      SetNext(s, next);
      SetPrev(s, a);
      SetNext(a, s);
      if next != null { SetPrev(next, s); } else { sectionLast := s; }
      list := Inserted(list, k + 1, s);
      Overwritten(old(Nexts()), s, old(s.next), s.next);
      Overwritten(old(Prevs()), s, old(s.prev), s.prev);
    }

    /** `bfd_section_list_insert_before` */
    method InsertBefore(b: Section, s: Section, ghost k: nat)
      requires Valid() && k < |list| && list[k] == b && s !in list
      modifies this, ever, s
      ensures Valid() && list == Inserted(old(list), k, s) && ever == old(ever) + {s}
    {
      hide Represents, NoEcho, Inserted, Nth, Closed, Nexts, Prevs;
      Ends();
      Neighbours(k);
      IsNth(list, k);
      SplicedRepresents(State(), list, k, s);
      var prev := b.prev;
      Adopt(s);
      SetPrev(s, prev);
      SetNext(s, b);
      SetPrev(b, s);
      if prev != null { SetNext(prev, s); } else { sections := s; }
      list := Inserted(list, k, s);
      Overwritten(old(Nexts()), s, old(s.next), s.next);
      Overwritten(old(Prevs()), s, old(s.prev), s.prev);
    }

    /** `bfd_section_list_remove` */
    method Remove(s: Section, ghost k: nat)
      requires Valid() && k < |list| && list[k] == s
      modifies this, ever
      ensures Valid() && list == Without(old(list), k) && ever == old(ever) && s !in list
    {
      hide Represents, NoEcho, Without, Nth, Closed, Nexts, Prevs;
      Ends();
      Neighbours(k);
      JoinedRepresents(State(), list, k);
      TakenOut(list, k);
      var next, prev := s.next, s.prev;
      if prev != null { SetNext(prev, next); } else { sections := next; }
      if next != null { SetPrev(next, prev); } else { sectionLast := prev; }
      list := Without(list, k);
    }

    lemma TakenOut(l: seq<Section>, k: nat)
      requires Valid() && l == list && k < |l|
      ensures l[k] !in Without(l, k)
    {
      WithoutDistinct(l, k);
    }

    /** `bfd_section_removed_from_list`: for every section that ever was in the list, two pointers tell
        whether it still is. */
    method RemovedFromList(s: Section) returns (removed: bool)
      requires Valid() && s in ever
      ensures removed <==> s !in list
    {
      removed := if s.next != null then s.next.prev != s else sectionLast != s;
      if s in list {
        ghost var k :| 0 <= k < |list| && list[k] == s;
        Neighbours(k);
        if k + 1 < |list| { Neighbours(k + 1); }
      }
    }

    /** Any run of edits: the pointers represent the edited sequence, and every section that ever was in
        the list can be told from those that are in it now. */
    method Run(ops: seq<Op>)
      requires Valid() && AllApply(list, ops, |ops|)
      modifies this, ever, Used(ops)
      ensures Valid() && AllApply(old(list), ops, |ops|) && list == EditedBy(old(list), ops, |ops|)
      ensures ever == old(ever) + Used(ops)
    {
      hide Valid, Inserted, Without, Used;
      NothingUsed();
      for n := 0 to |ops|
        invariant Valid() && ever == old(ever) + Used(ops[..n])
        invariant AllApply(old(list), ops, n) && list == EditedBy(old(list), ops, n)
        invariant AllApply(old(list), ops, |ops|)
      {
        ApplyPrefix(old(list), ops, n + 1, |ops|);
        var all := Sections();
        UsedNext(ops, n);
        match ops[n]
        case AppendOp(s) => Append(s);
        case PrependOp(s) => Prepend(s);
        case AfterOp(k, s) => InsertAfter(all[k], s, k);
        case BeforeOp(k, s) => InsertBefore(all[k], s, k);
        case RemoveOp(k) => Remove(all[k], k);
      }
      assert ops[..|ops|] == ops;
    }

    /** Following `next` from the first section visits the sections in order. */
    method Sections() returns (r: seq<Section>)
      requires Valid()
      ensures r == list
    {
      hide Represents, NoEcho, Nth, Closed;
      Ends();
      r := [];
      var s := sections;
      while s != null
        invariant r <= list && s == Nth(list, |r|)
        decreases |list| - |r|
      {
        AtNth(list, |r|);
        Neighbours(|r|);
        r := r + [s];
        s := s.next;
      }
      AtNth(list, |r|);
    }
  }

  lemma NothingAt(list: seq<Section>)
    ensures Nth(list, -1) == null && Nth(list, |list|) == null
    ensures Nth(list, 0) == null <==> Nth(list, |list| - 1) == null
  {
  }

  lemma IsNth(list: seq<Section>, k: nat)
    requires k < |list|
    ensures Nth(list, k) == list[k]
  {
  }

  lemma AtNth(list: seq<Section>, k: nat)
    requires k <= |list|
    ensures if k < |list| then Nth(list, k) == list[k] else Nth(list, k) == null
  {
  }

  lemma Overwritten(m: map<Section, Section?>, s: Section, v: Section?, w: Section?)
    ensures m[s := v][s := w] == m[s := w]
  {
  }
}
