/**
 Bookkeeping of shared huge pages: entries own pages, mappings refer to entries and are counted there, and an entry's
 pages go back when its release has been scheduled and the last mapping is gone.
 */
module HugePages {
  import opened Words

  const PAGE: int := 0x20_0000 // kPageSize

  /** A page file that is present, or an empty place; `inUse` while an entry owns it. */
  datatype Page = Page(fileId: nat, present: bool, numaNode: nat, inUse: bool)

  /** `pageIds` is empty in an unused entry. */
  datatype Entry = Entry(refcount: nat, toRemove: bool, length: U64, numPages: nat, pageIds: seq<nat>)

  /** `addr` is 0 in an unused mapping. */
  datatype Mapping = Mapping(entryId: nat, addr: U64, length: U64, pageOffset: nat, numPages: nat)

  /** How a call of map ends; the last is a read of a page index behind those of the entry, with no defined outcome. */
  datatype MapResult = Mapped | Refused | ReadsPastEntry

  const MOST_PAGES: int := TWO_63 / PAGE

  const NO_ENTRY := Entry(0, false, 0, 0, [])
  const NO_MAPPING := Mapping(0, 0, 0, 0, 0)

  /** `(length + (kPageSize - 1)) / kPageSize` in 64-bit arithmetic. */
  function PagesFor(length: U64): nat {
    (length + PAGE - 1) % TWO_64 / PAGE
  }

  // ---------- Free pages ----------

  predicate Free(page: Page, node: nat) {
    page.present && !page.inUse && page.numaNode == node
  }

  /** The free pages of a node among the first n, in order. */
  ghost function FreePages(pages: seq<Page>, node: nat, n: nat): (ids: seq<nat>)
    requires n <= |pages|
    ensures forall id | id in ids :: id < n && Free(pages[id], node)
    ensures forall i, j | 0 <= i < j < |ids| :: ids[i] != ids[j]
  {
    if n == 0 then [] else FreePages(pages, node, n - 1) + if Free(pages[n - 1], node) then [n - 1] else []
  }

  /** They are all pages of the node that are present and not in use, in ascending order. */
  lemma {:induction false} FreePagesAre(pages: seq<Page>, node: nat, n: nat)
    requires n <= |pages|
    ensures var ids := FreePages(pages, node, n);
            && (forall id: nat :: id in ids <==>
                  id < n && pages[id].present && !pages[id].inUse && pages[id].numaNode == node)
            && (forall i, j | 0 <= i < j < |ids| :: ids[i] < ids[j])
  {
    if 0 < n {
      FreePagesAre(pages, node, n - 1);
      var rest, ids := FreePages(pages, node, n - 1), FreePages(pages, node, n);
      assert ids == rest + if Free(pages[n - 1], node) then [n - 1] else [];
      forall i, j | 0 <= i < j < |ids|
        ensures ids[i] < ids[j]
      {
        assert rest[i] in rest;
      }
      forall id: nat
        ensures id in ids <==> id < n && Free(pages[id], node)
      {
        assert id in ids <==> id in rest || (id == n - 1 && Free(pages[n - 1], node));
      }
    }
  }

  /** The pages wanted hold the length, and one fewer would not; close to 2^64 the sum wraps and no page is wanted. */
  lemma PagesHold(length: U64)
    ensures length <= TWO_64 - PAGE ==> PAGE * (PagesFor(length) - 1) < length <= PAGE * PagesFor(length)
    ensures TWO_64 - PAGE < length ==> PagesFor(length) == 0
  {
  }

  lemma {:induction false} FreePagesPrefix(pages: seq<Page>, node: nat, m: nat, n: nat)
    requires m <= n <= |pages|
    ensures FreePages(pages, node, m) <= FreePages(pages, node, n)
  {
    if m < n {
      FreePagesPrefix(pages, node, m, n - 1);
    }
  }

  // ---------- References ----------

  /** How many live mappings refer to an entry. */
  ghost function References(mappings: seq<Mapping>, e: nat): nat {
    if mappings == [] then 0 else
      var m := mappings[|mappings| - 1];
      References(mappings[..|mappings| - 1], e) + if m.addr != 0 && m.entryId == e then 1 else 0
  }

  function Refers(m: Mapping, e: nat): nat {
    if m.addr != 0 && m.entryId == e then 1 else 0
  }

  lemma {:induction false} ReferencesChanged(mappings: seq<Mapping>, i: nat, m: Mapping, e: nat)
    requires i < |mappings|
    ensures References(mappings[i := m], e) + Refers(mappings[i], e) == References(mappings, e) + Refers(m, e)
  {
    var n := |mappings| - 1;
    if i < n {
      ReferencesChanged(mappings[..n], i, m, e);
      assert mappings[i := m][..n] == mappings[..n][i := m];
    } else {
      assert mappings[i := m][..n] == mappings[..n];
    }
  }

  lemma ReferencesUnused(mappings: seq<Mapping>, e: nat)
    ensures References(mappings + [NO_MAPPING], e) == References(mappings, e)
  {
    assert (mappings + [NO_MAPPING])[..|mappings|] == mappings;
  }

  lemma {:induction false} Referred(mappings: seq<Mapping>, i: nat, e: nat)
    requires i < |mappings| && Refers(mappings[i], e) == 1
    ensures 0 < References(mappings, e)
  {
    if i < |mappings| - 1 {
      Referred(mappings[..|mappings| - 1], i, e);
    }
  }

  // ---------- The invariant ----------

  ghost predicate EntryOk(entry: Entry, pages: nat) {
    && entry.numPages == |entry.pageIds|
    && (forall i | 0 <= i < |entry.pageIds| :: entry.pageIds[i] < pages)
    && (forall i, j | 0 <= i < j < |entry.pageIds| :: entry.pageIds[i] != entry.pageIds[j])
    && (entry.pageIds != [] ==>
          entry.numPages == PagesFor(entry.length) && entry.length <= PAGE * entry.numPages && entry.length <= TWO_63)
    && (entry.pageIds == [] ==> entry.refcount == 0 && !entry.toRemove)
  }

  ghost predicate MappingOk(m: Mapping, entries: seq<Entry>) {
    m.addr != 0 ==>
      && m.entryId < |entries| && entries[m.entryId].pageIds != []
      && m.pageOffset + m.numPages <= entries[m.entryId].numPages
  }

  /** No page belongs to two entries. */
  ghost predicate Disjoint(entries: seq<Entry>) {
    forall d, e, id | 0 <= d < |entries| && 0 <= e < |entries| && id in entries[d].pageIds
      && id in entries[e].pageIds ::
      d == e
  }

  ghost predicate Owned(entries: seq<Entry>, id: nat) {
    exists e :: 0 <= e < |entries| && id in entries[e].pageIds
  }

  /** A page is in use exactly when an entry owns it. */
  ghost predicate InUseExactly(pages: seq<Page>, entries: seq<Entry>) {
    forall id | 0 <= id < |pages| :: pages[id].inUse <==> Owned(entries, id)
  }

  /** A reference count is the number of live mappings. */
  ghost predicate Counted(entries: seq<Entry>, mappings: seq<Mapping>) {
    forall e | 0 <= e < |entries| :: entries[e].refcount == References(mappings, e)
  }

  /** No entry waits for its release without a mapping that keeps it. */
  ghost predicate Prompt(entries: seq<Entry>) {
    forall e | 0 <= e < |entries| :: !(entries[e].toRemove && entries[e].refcount == 0)
  }

  ghost predicate Ok(pages: seq<Page>, entries: seq<Entry>, mappings: seq<Mapping>) {
    && (forall e | 0 <= e < |entries| :: EntryOk(entries[e], |pages|))
    && (forall i | 0 <= i < |mappings| :: MappingOk(mappings[i], entries))
    && Disjoint(entries) && InUseExactly(pages, entries) && Counted(entries, mappings)
  }

  /** A mapping without an address is an unused one. */
  ghost predicate NullsUnused(entries: seq<Entry>, mappings: seq<Mapping>) {
    && (mappings != [] ==> entries != [])
    && forall i | 0 <= i < |mappings| :: mappings[i].addr == 0 ==> mappings[i] == NO_MAPPING
  }

  /** Pages with the use of some of them changed. */
  ghost predicate Marked(pages: seq<Page>, pages': seq<Page>, ids: seq<nat>, inUse: bool) {
    |pages'| == |pages| && forall id | 0 <= id < |pages| ::
      pages'[id] == if id in ids then pages[id].(inUse := inUse) else pages[id]
  }

  // ---------- Taking and returning pages ----------

  /** An unused entry takes free pages. */
  lemma Taken(pages: seq<Page>, pages': seq<Page>, entries: seq<Entry>, mappings: seq<Mapping>, e: nat, length: U64,
              ids: seq<nat>)
    requires Ok(pages, entries, mappings) && e < |entries| && entries[e].pageIds == [] && |ids| == PagesFor(length)
    requires forall i | 0 <= i < |ids| :: ids[i] < |pages| && !pages[ids[i]].inUse
    requires |pages| <= MOST_PAGES && |ids| <= |pages|
    requires forall i, j | 0 <= i < j < |ids| :: ids[i] != ids[j]
    requires Marked(pages, pages', ids, true)
    ensures Ok(pages', entries[e := entries[e].(length := length, numPages := |ids|, pageIds := ids)], mappings)
  {
    hide References, Disjoint, InUseExactly, Marked;
    var entries' := entries[e := entries[e].(length := length, numPages := |ids|, pageIds := ids)];
    assert EntryOk(entries[e], |pages|);
    EnoughPages(length);
    OwnersAfterTaking(pages, pages', entries, entries', e, ids);
    forall d | 0 <= d < |entries'|
      ensures EntryOk(entries'[d], |pages'|) && entries'[d].refcount == References(mappings, d)
    {
      assert EntryOk(entries[d], |pages|) && entries[d].refcount == References(mappings, d);
    }
    forall i | 0 <= i < |mappings|
      ensures MappingOk(mappings[i], entries')
    {
      assert MappingOk(mappings[i], entries);
    }
  }

  lemma OwnersAfterTaking(pages: seq<Page>, pages': seq<Page>, entries: seq<Entry>, entries': seq<Entry>, e: nat,
                          ids: seq<nat>)
    requires Disjoint(entries) && InUseExactly(pages, entries) && e < |entries| == |entries'|
             && entries[e].pageIds == []
    requires entries'[e].pageIds == ids && forall d | 0 <= d < |entries| && d != e :: entries'[d] == entries[d]
    requires (forall i | 0 <= i < |ids| :: ids[i] < |pages| && !pages[ids[i]].inUse) && Marked(pages, pages', ids, true)
    ensures |pages'| == |pages| && Disjoint(entries') && InUseExactly(pages', entries')
  {
    assert forall id | id in ids :: id < |pages| && !Owned(entries, id);
    forall id | 0 <= id < |pages'|
      ensures pages'[id].inUse <==> Owned(entries', id)
    {
      if Owned(entries, id) {
        var d :| 0 <= d < |entries| && id in entries[d].pageIds;
        assert id in entries'[d].pageIds;
      } else if id in ids {
        assert id in entries'[e].pageIds;
      }
    }
  }

  lemma EnoughPages(length: U64)
    ensures PagesFor(length) > 0 ==> length <= PAGE * PagesFor(length)
  {
  }

  /** An entry that nobody maps gives its pages back. */
  lemma GivenBack(pages: seq<Page>, pages': seq<Page>, entries: seq<Entry>, mappings: seq<Mapping>, e: nat)
    requires Ok(pages, entries, mappings) && e < |entries| && entries[e].refcount == 0
    requires Marked(pages, pages', entries[e].pageIds, false)
    ensures Ok(pages', entries[e := NO_ENTRY], mappings)
  {
    hide References;
    var entries' := entries[e := NO_ENTRY];
    assert References(mappings, e) == 0;
    forall d | 0 <= d < |entries'|
      ensures EntryOk(entries'[d], |pages'|) && entries'[d].refcount == References(mappings, d)
    {
      assert EntryOk(entries[d], |pages|) && entries[d].refcount == References(mappings, d);
    }
    forall i | 0 <= i < |mappings|
      ensures MappingOk(mappings[i], entries')
    {
      assert MappingOk(mappings[i], entries);
      if mappings[i].addr != 0 && mappings[i].entryId == e {
        Referred(mappings, i, e);
      }
    }
    forall id | 0 <= id < |pages'|
      ensures pages'[id].inUse <==> Owned(entries', id)
    {
      if Owned(entries, id) {
        var d :| 0 <= d < |entries| && id in entries[d].pageIds;
        assert d != e ==> id in entries'[d].pageIds;
      }
    }
  }

  /** One mapping more or less, with its entry's count. */
  lemma Recounted(pages: seq<Page>, entries: seq<Entry>, mappings: seq<Mapping>, i: nat, m: Mapping, e: nat, count: nat)
    requires Ok(pages, entries, mappings) && i < |mappings| && e < |entries| && entries[e].pageIds != []
    requires count + Refers(mappings[i], e) == entries[e].refcount + Refers(m, e)
    requires MappingOk(m, entries) && (forall d | d != e :: Refers(mappings[i], d) == Refers(m, d))
    ensures Ok(pages, entries[e := entries[e].(refcount := count)], mappings[i := m])
  {
    hide References, Refers;
    var entries', mappings' := entries[e := entries[e].(refcount := count)], mappings[i := m];
    forall d | 0 <= d < |entries|
      ensures EntryOk(entries'[d], |pages|) && entries'[d].refcount == References(mappings', d)
    {
      assert EntryOk(entries[d], |pages|) && entries[d].refcount == References(mappings, d);
      ReferencesChanged(mappings, i, m, d);
    }
    forall k | 0 <= k < |mappings|
      ensures MappingOk(mappings'[k], entries')
    {
      assert MappingOk(mappings[k], entries);
    }
    forall id | 0 <= id < |pages|
      ensures pages[id].inUse <==> Owned(entries', id)
    {
      SameOwners(entries, entries', id);
    }
  }

  lemma SameOwners(entries: seq<Entry>, entries': seq<Entry>, id: nat)
    requires |entries| == |entries'| && forall e | 0 <= e < |entries| :: entries'[e].pageIds == entries[e].pageIds
    ensures Owned(entries, id) <==> Owned(entries', id)
  {
    if Owned(entries, id) {
      var d :| 0 <= d < |entries| && id in entries[d].pageIds;
      assert id in entries'[d].pageIds;
    }
    if Owned(entries', id) {
      var d :| 0 <= d < |entries| && id in entries'[d].pageIds;
      assert id in entries[d].pageIds;
    }
  }

  /** An unused entry or mapping at the end. */
  lemma EntryPushed(pages: seq<Page>, entries: seq<Entry>, mappings: seq<Mapping>)
    requires Ok(pages, entries, mappings)
    ensures Ok(pages, entries + [NO_ENTRY], mappings)
  {
    var entries' := entries + [NO_ENTRY];
    NoReferences(mappings, entries, |mappings|);
    forall id | 0 <= id < |pages|
      ensures Owned(entries, id) <==> Owned(entries', id)
    {
      if Owned(entries, id) {
        var d :| 0 <= d < |entries| && id in entries[d].pageIds;
        assert id in entries'[d].pageIds;
      }
    }
    forall i | 0 <= i < |mappings|
      ensures MappingOk(mappings[i], entries')
    {
      assert MappingOk(mappings[i], entries);
    }
  }

  lemma {:induction false} NoReferences(mappings: seq<Mapping>, entries: seq<Entry>, n: nat)
    requires n <= |mappings| && forall i | 0 <= i < |mappings| :: MappingOk(mappings[i], entries)
    ensures References(mappings[..n], |entries|) == 0 && mappings[..|mappings|] == mappings
  {
    if 0 < n {
      NoReferences(mappings, entries, n - 1);
      assert mappings[..n][..n - 1] == mappings[..n - 1];
      assert MappingOk(mappings[n - 1], entries);
    }
  }

  lemma MappingPushed(pages: seq<Page>, entries: seq<Entry>, mappings: seq<Mapping>)
    requires Ok(pages, entries, mappings)
    ensures Ok(pages, entries, mappings + [NO_MAPPING])
  {
    forall e | 0 <= e < |entries|
      ensures entries[e].refcount == References(mappings + [NO_MAPPING], e)
    {
      ReferencesUnused(mappings, e);
    }
  }

  lemma ReleaseScheduled(pages: seq<Page>, entries: seq<Entry>, mappings: seq<Mapping>, e: nat)
    requires Ok(pages, entries, mappings) && e < |entries| && entries[e].pageIds != []
    ensures Ok(pages, entries[e := entries[e].(toRemove := true)], mappings)
  {
    hide References;
    var entries' := entries[e := entries[e].(toRemove := true)];
    forall d | 0 <= d < |entries|
      ensures EntryOk(entries'[d], |pages|) && entries'[d].refcount == References(mappings, d)
    {
      assert EntryOk(entries[d], |pages|) && entries[d].refcount == References(mappings, d);
    }
    forall k | 0 <= k < |mappings|
      ensures MappingOk(mappings[k], entries')
    {
      assert MappingOk(mappings[k], entries);
    }
    forall id | 0 <= id < |pages|
      ensures pages[id].inUse <==> Owned(entries', id)
    {
      SameOwners(entries, entries', id);
    }
  }

  // ---------- Ranges ----------

  /** The checks of map on offset and length, in 64-bit arithmetic. */
  predicate RangeAccepted(entry: Entry, offset: U64, length: U64) {
    offset <= entry.length && (offset + length) % TWO_64 <= entry.length
  }

  /** The page indices that map then uses lie within the entry. */
  predicate RangeInside(entry: Entry, offset: U64, length: U64) {
    offset / PAGE + PagesFor(length) <= entry.numPages
  }

  /** Of the ranges that pass the checks exactly those are outside the entry whose end wraps around while their number
      of pages does not. */
  lemma RangeChecked(entry: Entry, pages: nat, offset: U64, length: U64)
    requires EntryOk(entry, pages) && entry.pageIds != [] && offset % PAGE == 0 && RangeAccepted(entry, offset, length)
    ensures RangeInside(entry, offset, length) <==> !(TWO_64 <= offset + length && length <= TWO_64 - PAGE)
  {
    RangeArithmetic(entry.numPages, entry.length, offset / PAGE, length);
  }

  lemma RangeArithmetic(n: nat, size: U64, k: nat, length: U64)
    requires size <= PAGE * n && n == PagesFor(size) && PAGE * k <= size <= TWO_63
    requires (PAGE * k + length) % TWO_64 <= size
    ensures k + PagesFor(length) <= n <==> !(TWO_64 <= PAGE * k + length && length <= TWO_64 - PAGE)
  {
  }

  // ---------- The bookkeeping ----------

  lemma FreePagesStep(pages: seq<Page>, node: nat, n: nat)
    requires n < |pages|
    ensures FreePages(pages, node, n + 1) == FreePages(pages, node, n) + if Free(pages[n], node) then [n] else []
  {
  }

  lemma FreePagesNone(pages: seq<Page>, node: nat)
    ensures FreePages(pages, node, 0) == []
  {
  }

  lemma {:induction false} FreePagesFew(pages: seq<Page>, node: nat, n: nat)
    requires n <= |pages|
    ensures |FreePages(pages, node, n)| <= n
  {
    if 0 < n {
      FreePagesFew(pages, node, n - 1);
    }
  }

  /** Without pages an entry neither counts references nor waits for its release. */
  lemma UnusedEntryIs(pages: seq<Page>, entries: seq<Entry>, mappings: seq<Mapping>, e: nat)
    requires Ok(pages, entries, mappings) && e < |entries| && entries[e].pageIds == []
    ensures entries[e].refcount == 0 && !entries[e].toRemove
  {
    assert EntryOk(entries[e], |pages|);
  }

  lemma EntryIds(pages: seq<Page>, entries: seq<Entry>, mappings: seq<Mapping>, e: nat)
    requires Ok(pages, entries, mappings) && e < |entries|
    ensures EntryOk(entries[e], |pages|)
  {
  }

  lemma ReferencesCounted(pages: seq<Page>, entries: seq<Entry>, mappings: seq<Mapping>, i: nat)
    requires Ok(pages, entries, mappings) && i < |mappings| && mappings[i].addr != 0
    ensures var e := mappings[i].entryId; e < |entries| && entries[e].pageIds != [] && 0 < entries[e].refcount
  {
    hide References;
    assert MappingOk(mappings[i], entries);
    Referred(mappings, i, mappings[i].entryId);
    assert entries[mappings[i].entryId].refcount == References(mappings, mappings[i].entryId);
  }

  class Memory {
    var pages: seq<Page>
    var entries: seq<Entry>
    var mappings: seq<Mapping>

    ghost predicate Valid()
      reads this
    {
      Ok(pages, entries, mappings) && Prompt(entries) && |pages| <= MOST_PAGES && NullsUnused(entries, mappings)
    }

    /** Nothing is allocated yet. */
    constructor (pages: seq<Page>)
      requires |pages| <= MOST_PAGES && forall id | 0 <= id < |pages| :: !pages[id].inUse
      ensures Valid() && this.pages == pages && entries == [] && mappings == []
    {
      this.pages, entries, mappings := pages, [], [];
    }

    /** The first entry without pages, after adding one if there is none. */
    method UnusedEntry() returns (e: nat)
      requires Valid()
      modifies this`entries
      ensures Valid() && e < |entries| && entries[e].pageIds == []
      ensures entries == if e < |old(entries)| then old(entries) else old(entries) + [NO_ENTRY]
      ensures forall d | 0 <= d < e :: entries[d].pageIds != []
    {
      hide Ok;
      e := 0;
      while e < |entries| && entries[e].pageIds != []
        invariant 0 <= e <= |entries| && forall d | 0 <= d < e :: entries[d].pageIds != []
      {
        e := e + 1;
      }
      if e == |entries| {
        EntryPushed(pages, entries, mappings);
        entries := entries + [NO_ENTRY];
      }
    }

    /** Sets or clears the use of some pages. */
    method Mark(ids: seq<nat>, inUse: bool)
      requires forall i | 0 <= i < |ids| :: ids[i] < |pages|
      modifies this`pages
      ensures Marked(old(pages), pages, ids, inUse)
    {
      for k := 0 to |ids|
        invariant Marked(old(pages), pages, ids[..k], inUse)
      {
        pages := pages[ids[k] := pages[ids[k]].(inUse := inUse)];
        assert ids[..k + 1] == ids[..k] + [ids[k]];
      }
      assert ids[..|ids|] == ids;
    }

    /** The first free pages of a node, as many as wanted or else all. */
    method PickPages(node: nat, wanted: nat) returns (ids: seq<nat>)
      ensures var free := FreePages(pages, node, |pages|);
              ids == if wanted <= |free| then free[..wanted] else free
      ensures |ids| <= |pages| && forall k | 0 <= k < |ids| :: ids[k] < |pages| && !pages[ids[k]].inUse
      ensures forall j, k | 0 <= j < k < |ids| :: ids[j] != ids[k]
    {
      hide FreePages;
      ids := [];
      var id := 0;
      FreePagesNone(pages, node);
      while id < |pages| && |ids| != wanted
        invariant 0 <= id <= |pages| && |ids| <= wanted && ids == FreePages(pages, node, id)
      {
        FreePagesStep(pages, node, id);
        if Free(pages[id], node) {
          ids := ids + [id];
        }
        id := id + 1;
      }
      FreePagesPrefix(pages, node, id, |pages|);
      FreePagesFew(pages, node, |pages|);
      assert forall k | 0 <= k < |ids| :: ids[k] in ids;
    }

    /** Allocates pages of a node: succeeds exactly when the node has enough free ones, and takes the first of them. */
    method Alloc(length: U64, node: nat) returns (ok: bool, e: nat)
      requires Valid()
      modifies this
      ensures Valid() && mappings == old(mappings)
      ensures ok <==> PagesFor(length) <= |FreePages(old(pages), node, |old(pages)|)|
      ensures ok ==>
                && e < |entries| && entries[e].length == length && entries[e].numPages == PagesFor(length)
                && entries[e].refcount == 0 && !entries[e].toRemove
                && entries[e].pageIds == FreePages(old(pages), node, |old(pages)|)[..PagesFor(length)]
                && Marked(old(pages), pages, entries[e].pageIds, true)
      ensures !ok ==> pages == old(pages) && e < |entries| && entries[e] == NO_ENTRY
      ensures e <= |old(entries)| && forall d | 0 <= d < e :: old(entries)[d].pageIds != []
      ensures |entries| == if e < |old(entries)| then |old(entries)| else |old(entries)| + 1
      ensures forall d | 0 <= d < |old(entries)| && old(entries[d]).pageIds != [] ::
                d < |entries| && entries[d] == old(entries[d]) && (ok ==> d != e)
    {
      hide Ok, FreePages, PagesFor, Marked;
      e := UnusedEntry();
      assert forall d | 0 <= d < e :: old(entries)[d] == entries[d];
      UnusedEntryIs(pages, entries, mappings, e);
      var numPages := PagesFor(length);
      var ids := PickPages(node, numPages);
      ghost var pages0 := pages;
      if |ids| != numPages {
        GivenBack(pages, pages, entries, mappings, e) by { NoneMarked(pages); }
        entries := entries[e := NO_ENTRY];
        return false, e;
      }
      Mark(ids, true);
      SamePageCount(pages0, pages, ids);
      Taken(pages0, pages, entries, mappings, e, length, ids);
      entries := entries[e := entries[e].(length := length, numPages := numPages, pageIds := ids)];
      ok := true;
    }

    /** Gives the pages of an entry back if its release is scheduled and nobody maps it.  `live` are the mappings that
        will be left. */
    method CheckRelease(e: nat, ghost live: seq<Mapping>)
      requires e < |entries| && EntryIdsInside(entries[e], |pages|)
      modifies this`pages, this`entries
      ensures |pages| == |old(pages)| && |entries| == |old(entries)|
      ensures old(Ok(pages, entries, live)) ==> Ok(pages, entries, live)
      ensures (forall d | 0 <= d < |old(entries)|
               && d != e :: !(old(entries)[d].toRemove && old(entries)[d].refcount == 0)) ==>
                Prompt(entries)
      ensures old(entries[e]).toRemove && old(entries[e]).refcount == 0 ==>
                entries == old(entries)[e := NO_ENTRY] && Marked(old(pages), pages, old(entries[e]).pageIds, false)
      ensures !(old(entries[e]).toRemove && old(entries[e]).refcount == 0) ==>
                entries == old(entries) && pages == old(pages)
    {
      hide Ok, Marked;
      if entries[e].refcount == 0 && entries[e].toRemove {
        ghost var pages0 := pages;
        Mark(entries[e].pageIds, false);
        SamePageCount(pages0, pages, entries[e].pageIds);
        if Ok(pages0, entries, live) {
          GivenBack(pages0, pages, entries, live, e);
        }
        entries := entries[e := NO_ENTRY];
      }
    }

    /** Schedules the release of an entry, which takes place at once if nobody maps it. */
    method ScheduleRelease(e: nat) returns (ok: bool)
      requires Valid() && e < |entries|
      modifies this`pages, this`entries
      ensures Valid() && (ok <==> old(entries[e]).pageIds != [])
      ensures !ok ==> pages == old(pages) && entries == old(entries)
      ensures ok && old(entries[e]).refcount == 0 ==>
                entries == old(entries)[e := NO_ENTRY] && Marked(old(pages), pages, old(entries[e]).pageIds, false)
      ensures ok && old(entries[e]).refcount != 0 ==>
                entries == old(entries)[e := old(entries[e]).(toRemove := true)] && pages == old(pages)
    {
      hide Ok, Marked;
      if entries[e].pageIds == [] {
        return false;
      }
      ReleaseScheduled(pages, entries, mappings, e);
      EntryIds(pages, entries, mappings, e);
      entries := entries[e := entries[e].(toRemove := true)];
      CheckRelease(e, mappings);
      ok := true;
    }

    /** The first mapping with an address, or the number of mappings. */
    method FindMapping(addr: U64) returns (i: nat)
      ensures i <= |mappings| && (i < |mappings| ==> mappings[i].addr == addr)
      ensures forall k | 0 <= k < i :: mappings[k].addr != addr
    {
      i := 0;
      while i < |mappings| && mappings[i].addr != addr
        invariant 0 <= i <= |mappings| && forall k | 0 <= k < i :: mappings[k].addr != addr
      {
        i := i + 1;
      }
    }

    /** Maps a range of an entry.  `working` is the number of pages that the system maps before it refuses one; `files`
        are the page files mapped, in order.  At a null address the mapping counts as a reference without being one. */
    method Map(e: nat, ptr: U64, offset: U64, length: U64, working: nat) returns (result: MapResult, files: seq<nat>)
      requires Valid() && e < |entries|
      modifies this`entries, this`mappings
      ensures pages == old(pages)
      ensures Valid() <==> ptr != 0 || !result.Mapped?
      ensures Counted(entries, mappings) <==> ptr != 0 || !result.Mapped?
      ensures result.Refused? <==> !MayMap(old(entries[e]), ptr, offset, length)
                                   || working < Within(old(entries[e]), offset, length)
      ensures result.ReadsPastEntry? ==> TWO_64 <= offset + length && length <= TWO_64 - PAGE
      ensures result.Mapped? ==> !(TWO_64 <= offset + length && length <= TWO_64 - PAGE)
      ensures !result.Mapped? ==>
                entries == old(entries) && (mappings == old(mappings) || mappings == old(mappings) + [NO_MAPPING])
      ensures result.Mapped? ==>
                && entries == old(entries)[e := old(entries[e]).(refcount := old(entries[e]).refcount + 1)]
                && exists i | 0 <= i < |mappings| ::
                     && mappings[i] == Mapping(e, ptr, length, offset / PAGE, PagesFor(length))
                     && (if i < |old(mappings)| then mappings == old(mappings)[i := mappings[i]]
                         && old(mappings)[i].addr == 0
                         else mappings == old(mappings) + [mappings[i]])
      ensures result.Mapped? && ptr == 0 ==> entries[e].refcount == References(mappings, e) + 1
      ensures result.Mapped? ==>
                && |files| == PagesFor(length) && offset / PAGE + |files| <= |entries[e].pageIds|
                && forall k | 0 <= k < |files| ::
                     entries[e].pageIds[offset / PAGE + k] < |pages|
                     && files[k] == pages[entries[e].pageIds[offset / PAGE + k]].fileId
    {
      hide Ok, PagesFor, RangeAccepted, NullsUnused, Counted, References;
      files := [];
      OkIsCounted(pages, entries, mappings);
      if ptr % PAGE != 0 || offset % PAGE != 0 || entries[e].pageIds == []
         || !RangeAccepted(entries[e], offset, length) {
        return Refused, files;
      }
      EntryIds(pages, entries, mappings, e);
      RangeChecked(entries[e], |pages|, offset, length);
      OffsetInside(entries[e], |pages|, offset, length);
      var i := FindMapping(0);
      if i == |mappings| {
        MappingPushed(pages, entries, mappings);
        MoreUnused(entries, mappings);
        mappings := mappings + [NO_MAPPING];
        OkIsCounted(pages, entries, mappings);
      }
      var page, end := offset / PAGE, offset / PAGE + PagesFor(length);
      while page < end
        invariant offset / PAGE <= page <= end && page == offset / PAGE + |files| && |files| <= working
        invariant page <= |entries[e].pageIds|
        invariant forall k | 0 <= k < |files| :: files[k] == pages[entries[e].pageIds[offset / PAGE + k]].fileId
      {
        if page == |entries[e].pageIds| {
          return ReadsPastEntry, files;
        }
        if |files| == working {
          return Refused, files;
        }
        files := files + [pages[entries[e].pageIds[page]].fileId];
        page := page + 1;
      }
      var m := Mapping(e, ptr, length, offset / PAGE, PagesFor(length));
      if ptr != 0 {
        Recounted(pages, entries, mappings, i, m, e, entries[e].refcount + 1);
      } else {
        NullReference(entries, mappings, i, m, e);
      }
      StillUnused(entries, mappings, i, m, e, entries[e].(refcount := entries[e].refcount + 1));
      entries := entries[e := entries[e].(refcount := entries[e].refcount + 1)];
      mappings := mappings[i := m];
      OkIsCounted(pages, entries, mappings);
      result := Mapped;
      assert mappings[i] == m;
      assert i == |old(mappings)| ==> mappings == old(mappings) + [m];
    }

    /** A mapping of no bytes at a null address: the entry counts one reference more than there are. */
    method MapNull(e: nat)
      requires Valid() && e < |entries| && entries[e].pageIds != []
      modifies this`entries, this`mappings
      ensures e < |entries| && entries[e].refcount == References(mappings, e) + 1
    {
      hide Ok, References;
      var result, files := Map(e, 0, 0, 0, 0);
    }

    /** Removes the first mapping at an address; the last one of an entry whose release is scheduled gives its pages
        back.  A null pointer finds an unused mapping, if there is one, and takes a reference from entry 0. */
    method Unmap(ptr: U64) returns (ok: bool)
      requires Valid()
      modifies this
      ensures Valid() <==> ptr != 0 || forall i | 0 <= i < |old(mappings)| :: old(mappings)[i].addr != 0
      ensures Counted(entries, mappings) <==>
                ptr != 0 || forall i | 0 <= i < |old(mappings)| :: old(mappings)[i].addr != 0
      ensures ok <==> exists i :: 0 <= i < |old(mappings)| && old(mappings)[i].addr == ptr
      ensures !ok ==> pages == old(pages) && entries == old(entries) && mappings == old(mappings)
      ensures ok ==> exists i | 0 <= i < |old(mappings)| ::
                && old(mappings)[i].addr == ptr && mappings == old(mappings)[i := NO_MAPPING]
                && (forall k | 0 <= k < i :: old(mappings)[k].addr != ptr)
                && Dereferenced(old(pages), pages, old(entries), entries, old(mappings)[i].entryId)
      ensures ok && ptr == 0 ==> mappings == old(mappings) && 0 < |old(entries)|
                                 && Dereferenced(old(pages), pages, old(entries), entries, 0)
    {
      hide Ok, Marked, Counted, References, NullsUnused;
      OkIsCounted(pages, entries, mappings);
      var i := FindMapping(ptr);
      if i == |mappings| {
        return false;
      }
      MappingRefers(pages, entries, mappings, i);
      var e := mappings[i].entryId;
      StillUnused(entries, mappings, i, NO_MAPPING, e, entries[e].(refcount := OneLess(entries[e].refcount)));
      ghost var entries0 := entries;
      if ptr != 0 {
        Recounted(pages, entries, mappings, i, NO_MAPPING, e, entries[e].refcount - 1);
      }
      entries := entries[e := entries[e].(refcount := OneLess(entries[e].refcount))];
      ghost var entries1 := entries;
      CheckRelease(e, mappings[i := NO_MAPPING]);
      mappings := mappings[i := NO_MAPPING];
      if ptr == 0 {
        assert mappings == old(mappings);
        Miscounted(entries0, entries, mappings);
      } else {
        AlsoUnused(entries1, entries, mappings);
      }
      OkIsCounted(pages, entries, mappings);
      ok := true;
      assert old(mappings)[i].addr == ptr;
    }
  }

  /** A memory of one free page, which an entry of that length takes. */
  method OnePage() returns (memory: Memory, e: nat)
    ensures fresh(memory) && memory.Valid() && memory.mappings == []
    ensures e == 0 && |memory.entries| == 1 && memory.entries[0].length == PAGE && memory.entries[0].pageIds == [0]
    ensures memory.entries[0].refcount == 0
  {
    hide Ok, Prompt, NullsUnused;
    memory := new Memory([Page(1, true, 0, false)]);
    ghost var pages := memory.pages;
    FirstPage(pages);
    var ok;
    ok, e := memory.Alloc(PAGE, 0);
  }

  lemma FirstPage(pages: seq<Page>)
    requires pages == [Page(1, true, 0, false)]
    ensures FreePages(pages, 0, 1) == [0] && PagesFor(PAGE) == 1
  {
    FreePagesNone(pages, 0);
    FreePagesStep(pages, 0, 0);
  }

  /** A range that starts behind the first page and ends there after going round: it passes the checks, but has no page.
      */
  method WrappedRange() returns (result: MapResult)
    ensures result == ReadsPastEntry
  {
    hide Ok, Prompt, NullsUnused;
    var memory, e := OnePage();
    var files;
    result, files := memory.Map(e, PAGE, PAGE, TWO_64 - PAGE, 0);
  }

  /** Unmapping twice, the second time a null pointer: the unused mapping is taken for one of entry 0. */
  method UnmapTwice() returns (memory: Memory)
    ensures !Counted(memory.entries, memory.mappings)
    ensures 0 < |memory.entries| && memory.entries[0].refcount == 0xffff_ffff_ffff_ffff
  {
    hide Ok, Prompt, NullsUnused, Counted;
    var e, result, files, ok;
    memory, e := OnePage();
    result, files := memory.Map(e, PAGE, 0, PAGE, 1);
    assert result == Mapped && memory.mappings[0].addr == PAGE;
    assert |memory.mappings| == 1 && memory.entries[0].refcount == 1;
    ok := memory.Unmap(PAGE);
    assert memory.mappings[0].addr == 0 && memory.entries[0].refcount == 0;
    ok := memory.Unmap(0);
  }

  /** `--refcount` in 64-bit arithmetic. */
  function OneLess(refcount: nat): nat {
    if refcount == 0 then TWO_64 - 1 else refcount - 1
  }

  /** One reference less; pages change hands only with the last one, and only if the release is scheduled. */
  ghost predicate Dereferenced(pages: seq<Page>, pages': seq<Page>, entries: seq<Entry>, entries': seq<Entry>, e: nat) {
    && e < |entries|
    && if OneLess(entries[e].refcount) == 0 && entries[e].toRemove then
         entries' == entries[e := NO_ENTRY] && Marked(pages, pages', entries[e].pageIds, false)
       else
         entries' == entries[e := entries[e].(refcount := OneLess(entries[e].refcount))] && pages' == pages
  }

  /** Checks that map makes before it maps pages. */
  predicate MayMap(entry: Entry, ptr: U64, offset: U64, length: U64) {
    ptr % PAGE == 0 && offset % PAGE == 0 && entry.pageIds != [] && RangeAccepted(entry, offset, length)
  }

  /** Pages of a range that the entry has. */
  function Within(entry: Entry, offset: U64, length: U64): int {
    var rest := |entry.pageIds| - offset / PAGE;
    if PagesFor(length) < rest then PagesFor(length) else rest
  }

  ghost predicate EntryIdsInside(entry: Entry, pages: nat) {
    forall i | 0 <= i < |entry.pageIds| :: entry.pageIds[i] < pages
  }

  lemma OkIsCounted(pages: seq<Page>, entries: seq<Entry>, mappings: seq<Mapping>)
    ensures Ok(pages, entries, mappings) ==> Counted(entries, mappings)
  {
  }

  lemma OffsetInside(entry: Entry, pages: nat, offset: U64, length: U64)
    requires EntryOk(entry, pages) && entry.pageIds != [] && offset % PAGE == 0 && RangeAccepted(entry, offset, length)
    ensures offset / PAGE <= |entry.pageIds| == entry.numPages
  {
    hide PagesFor;
  }

  lemma MoreUnused(entries: seq<Entry>, mappings: seq<Mapping>)
    requires NullsUnused(entries, mappings) && entries != []
    ensures NullsUnused(entries, mappings + [NO_MAPPING])
  {
  }

  lemma StillUnused(entries: seq<Entry>, mappings: seq<Mapping>, i: nat, m: Mapping, e: nat, entry: Entry)
    requires NullsUnused(entries, mappings) && i < |mappings| && e < |entries|
    ensures m.addr != 0 || m == NO_MAPPING ==> NullsUnused(entries[e := entry], mappings[i := m])
  {
  }

  lemma AlsoUnused(entries: seq<Entry>, entries': seq<Entry>, mappings: seq<Mapping>)
    requires NullsUnused(entries, mappings) && |entries'| == |entries|
    ensures NullsUnused(entries', mappings)
  {
  }

  /** Which entry a mapping refers to. */
  lemma MappingRefers(pages: seq<Page>, entries: seq<Entry>, mappings: seq<Mapping>, i: nat)
    requires Ok(pages, entries, mappings) && NullsUnused(entries, mappings) && i < |mappings|
    ensures var e := mappings[i].entryId;
            && e < |entries| && EntryIdsInside(entries[e], |pages|)
            && (mappings[i].addr != 0 ==> entries[e].pageIds != [] && 0 < entries[e].refcount)
            && (mappings[i].addr == 0 ==> e == 0 && mappings[i] == NO_MAPPING)
  {
    hide References;
    if mappings[i].addr != 0 {
      ReferencesCounted(pages, entries, mappings, i);
    }
    assert EntryOk(entries[mappings[i].entryId], |pages|);
  }

  /** A mapping that counts at a null address does not count there. */
  lemma NullReference(entries: seq<Entry>, mappings: seq<Mapping>, i: nat, m: Mapping, e: nat)
    requires Counted(entries, mappings) && i < |mappings| && e < |entries| && mappings[i].addr == 0 && m.addr == 0
    ensures var entries' := entries[e := entries[e].(refcount := entries[e].refcount + 1)];
            !Counted(entries', mappings[i := m]) && References(mappings[i := m], e) == entries[e].refcount
  {
    hide References;
    assert entries[e].refcount == References(mappings, e);
    ReferencesChanged(mappings, i, m, e);
    var entries' := entries[e := entries[e].(refcount := entries[e].refcount + 1)];
    assert entries'[e].refcount != References(mappings[i := m], e);
  }

  /** A reference less on entry 0, though no mapping has gone. */
  lemma Miscounted(entries: seq<Entry>, entries': seq<Entry>, mappings: seq<Mapping>)
    requires Counted(entries, mappings) && entries != [] && |entries'| == |entries|
    requires entries'[0].refcount == OneLess(entries[0].refcount)
    ensures !Counted(entries', mappings)
  {
    hide References;
    assert entries[0].refcount == References(mappings, 0);
  }

  lemma NoneMarked(pages: seq<Page>)
    ensures Marked(pages, pages, [], false)
  {
  }

  lemma SamePageCount(pages: seq<Page>, pages': seq<Page>, ids: seq<nat>)
    requires Marked(pages, pages', ids, true) || Marked(pages, pages', ids, false)
    ensures |pages'| == |pages|
  {
  }
}
