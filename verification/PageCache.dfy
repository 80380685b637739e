/** The page cache between the file system and the disk: over all hits, misses, growth,
    pass-through and write-back of stolen entries it behaves like the plain disk. */
module PageCache {

  type Page = seq<int>

  const ENTRY_COUNT: int := 170   // entries in one frame of the list

  datatype Entry = Entry(valid: bool, block: nat, data: Page, dirty: bool, secondChance: bool)

  const EMPTY: Entry := Entry(false, 0, [], false, false)

  /** The frames of the entry list laid end to end, and the disk. */
  datatype Cache = Cache(entries: seq<Entry>, disk: map<nat, Page>)

  function DiskAt(disk: map<nat, Page>, block: nat): Page {
    if block in disk then disk[block] else []
  }

  predicate Holds(e: Entry, block: nat) {
    e.valid && e.block == block
  }

  /** The position of a valid entry for `block` among the first `n`, or the number of entries. */
  function Find(entries: seq<Entry>, block: nat, n: nat): (k: nat)
    requires n <= |entries|
    ensures k < n || k == |entries|
    ensures k < n ==> Holds(entries[k], block)
    ensures k == |entries| ==> forall i :: 0 <= i < n ==> !Holds(entries[i], block)
  {
    if n == 0 then |entries|
    else if Holds(entries[n - 1], block) then n - 1
    else Find(entries, block, n - 1)
  }

  /** What a reader of `block` should get: the cached page, else the one on disk. */
  function View(c: Cache, block: nat): Page {
    var k := Find(c.entries, block, |c.entries|);
    if k < |c.entries| then c.entries[k].data else DiskAt(c.disk, block)
  }

  /** At most one valid entry per block. */
  ghost predicate Unique(entries: seq<Entry>) {
    forall i, j :: 0 <= i < j < |entries| && entries[i].valid && entries[j].valid ==>
        entries[i].block != entries[j].block
  }

  lemma ViewOfEntry(c: Cache, k: nat)
    requires Unique(c.entries) && k < |c.entries| && c.entries[k].valid
    ensures View(c, c.entries[k].block) == c.entries[k].data
  {
    var b := c.entries[k].block;
    var f := Find(c.entries, b, |c.entries|);
    assert Holds(c.entries[k], b);
  }

  lemma ViewOfDisk(c: Cache, block: nat)
    requires forall i :: 0 <= i < |c.entries| ==> !Holds(c.entries[i], block)
    ensures View(c, block) == DiskAt(c.disk, block)
  {
  }

  /** Changing entry `k` only matters for the blocks it held before or holds now. */
  lemma ViewElsewhere(c: Cache, k: nat, e: Entry, disk: map<nat, Page>, block: nat)
    requires k < |c.entries| && Unique(c.entries) && Unique(c.entries[k := e])
    requires !Holds(c.entries[k], block) && !Holds(e, block) && DiskAt(disk, block) == DiskAt(c.disk, block)
    ensures View(Cache(c.entries[k := e], disk), block) == View(c, block)
  {
    var c' := Cache(c.entries[k := e], disk);
    var f := Find(c.entries, block, |c.entries|);
    if f < |c.entries| {
      assert c'.entries[f] == c.entries[f];
      ViewOfEntry(c', f);
    } else {
      forall i | 0 <= i < |c'.entries| ensures !Holds(c'.entries[i], block) {
        assert i != k ==> c'.entries[i] == c.entries[i];
      }
      ViewOfDisk(c', block);
    }
  }

  // ----- the steps

  /** The views before and after agree on every block. */
  ghost predicate SameView(c: Cache, c': Cache) {
    forall b: nat :: View(c', b) == View(c, b)
  }

  ghost predicate OneWritten(c: Cache, c': Cache, block: nat, data: Page) {
    forall b: nat :: View(c', b) == if b == block then data else View(c, b)
  }

  /** Giving up entry `k`: written back to disk, then invalid. */
  function StealAt(c: Cache, k: nat): Cache
    requires k < |c.entries|
  {
    Cache(c.entries[k := c.entries[k].(valid := false)], c.disk[c.entries[k].block := c.entries[k].data])
  }

  /** Writing back before giving up loses nothing. */
  lemma StealKeepsView(c: Cache, k: nat)
    requires Unique(c.entries) && k < |c.entries| && c.entries[k].valid
    ensures Unique(StealAt(c, k).entries) && SameView(c, StealAt(c, k))
  {
    var c' := StealAt(c, k);
    forall b: nat ensures View(c', b) == View(c, b) {
      if b == c.entries[k].block {
        ViewOfEntry(c, k);
        forall i | 0 <= i < |c'.entries| ensures !Holds(c'.entries[i], b) {
          assert i != k ==> c'.entries[i] == c.entries[i];
        }
        ViewOfDisk(c', b);
      } else {
        ViewElsewhere(c, k, c'.entries[k], c'.disk, b);
      }
    }
  }

  /** A page for `block` moves into the free entry `k`. */
  function FillAt(c: Cache, k: nat, block: nat, data: Page, dirty: bool): Cache
    requires k < |c.entries|
  {
    c.(entries := c.entries[k := Entry(true, block, data, dirty, false)])
  }

  lemma FillView(c: Cache, k: nat, block: nat, data: Page, dirty: bool)
    requires Unique(c.entries) && k < |c.entries| && !c.entries[k].valid
    requires forall i :: 0 <= i < |c.entries| ==> !Holds(c.entries[i], block)
    ensures Unique(FillAt(c, k, block, data, dirty).entries)
    ensures OneWritten(c, FillAt(c, k, block, data, dirty), block, data)
  {
    var c' := FillAt(c, k, block, data, dirty);
    forall i, j | 0 <= i < j < |c'.entries| && c'.entries[i].valid && c'.entries[j].valid
      ensures c'.entries[i].block != c'.entries[j].block {
      assert !Holds(c.entries[i], block) && !Holds(c.entries[j], block);
    }
    forall b: nat ensures View(c', b) == if b == block then data else View(c, b) {
      if b == block {
        ViewOfEntry(c', k);
      } else {
        ViewElsewhere(c, k, c'.entries[k], c.disk, b);
      }
    }
  }

  /** Overwriting the page of a valid entry. */
  lemma UpdateView(c: Cache, k: nat, e: Entry)
    requires Unique(c.entries) && k < |c.entries| && c.entries[k].valid && e.valid && e.block == c.entries[k].block
    ensures Unique(c.entries[k := e])
    ensures OneWritten(c, c.(entries := c.entries[k := e]), e.block, e.data)
  {
    var c' := c.(entries := c.entries[k := e]);
    forall b: nat ensures View(c', b) == if b == e.block then e.data else View(c, b) {
      if b == e.block {
        ViewOfEntry(c', k);
      } else {
        ViewElsewhere(c, k, e, c.disk, b);
      }
    }
  }

  lemma GrowView(c: Cache, more: seq<Entry>)
    requires Unique(c.entries) && forall i :: 0 <= i < |more| ==> !more[i].valid
    ensures Unique(c.entries + more) && SameView(c, c.(entries := c.entries + more))
  {
    var c' := c.(entries := c.entries + more);
    forall b: nat ensures View(c', b) == View(c, b) {
      var f := Find(c.entries, b, |c.entries|);
      if f < |c.entries| {
        assert c'.entries[f] == c.entries[f];
        ViewOfEntry(c', f);
      } else {
        ViewOfDisk(c', b);
      }
    }
  }

  /** Writing straight to disk a block that is not cached. */
  lemma PassThroughView(c: Cache, block: nat, data: Page)
    requires forall i :: 0 <= i < |c.entries| ==> !Holds(c.entries[i], block)
    ensures OneWritten(c, c.(disk := c.disk[block := data]), block, data)
  {
  }

  // ----- history

  /** The page last written to `block`, or the one on disk at the start. */
  function LastWritten(writes: seq<(nat, Page)>, initial: map<nat, Page>, block: nat): Page {
    if writes == [] then DiskAt(initial, block)
    else if writes[|writes| - 1].0 == block then writes[|writes| - 1].1
    else LastWritten(writes[..|writes| - 1], initial, block)
  }

  lemma LastWrittenMore(writes: seq<(nat, Page)>, initial: map<nat, Page>, block: nat, data: Page, b: nat)
    ensures LastWritten(writes + [(block, data)], initial, b) == if b == block then data
        else LastWritten(writes, initial, b)
  {
    assert (writes + [(block, data)])[..|writes|] == writes;
  }

  /** The cache agrees with the plain disk. */
  ghost predicate Agrees(c: Cache, writes: seq<(nat, Page)>, initial: map<nat, Page>) {
    forall b: nat :: View(c, b) == LastWritten(writes, initial, b)
  }

  lemma AgreesSame(c: Cache, c': Cache, writes: seq<(nat, Page)>, initial: map<nat, Page>)
    requires Agrees(c, writes, initial) && SameView(c, c')
    ensures Agrees(c', writes, initial)
  {
  }

  lemma AgreesWrite(c: Cache, c': Cache, writes: seq<(nat, Page)>, initial: map<nat, Page>, block: nat, data: Page)
    requires Agrees(c, writes, initial) && OneWritten(c, c', block, data)
    ensures Agrees(c', writes + [(block, data)], initial)
  {
    hide View;
    forall b: nat ensures View(c', b) == LastWritten(writes + [(block, data)], initial, b) {
      LastWrittenMore(writes, initial, block, data, b);
    }
  }

  // ----- the code

  /** What the lookup hands back: an entry, nothing because memory is short, or the state in which
      the source goes on with a null page because there was nothing to steal. */
  datatype Slot = At(k: nat) | NoEntry | NullPage

  /** `c` is `b` with the free entry `k` claimed for `block`, whose page is yet to be filled. */
  ghost predicate ClaimedIn(b: Cache, c: Cache, k: nat, block: nat) {
    && k < |b.entries| && |c.entries| == |b.entries|
    && !b.entries[k].valid && (forall i :: 0 <= i < |b.entries| ==> !Holds(b.entries[i], block))
    && c == b.(entries := b.entries[k := Entry(true, block, c.entries[k].data, c.entries[k].dirty, false)])
  }

  class Store {
    var c: Cache
    ghost var writes: seq<(nat, Page)>
    ghost const initial: map<nat, Page>

    ghost predicate Valid()
      reads this
    {
      Unique(c.entries) && |c.entries| % ENTRY_COUNT == 0 && Agrees(c, writes, initial)
    }

    constructor (disk: map<nat, Page>)
      ensures Valid() && writes == [] && initial == disk && c.disk == disk
    {
      c := Cache(seq(ENTRY_COUNT, i => EMPTY), disk);
      writes := [];
      initial := disk;
      new;
      forall b: nat ensures View(c, b) == LastWritten([], initial, b) {
        ViewOfDisk(c, b);
      }
    }

    /** kalloc_for_page_cache, which may find no free page at any time. */
    method KallocForPageCache() returns (ok: bool)
    {
      ok := *;
    }

    /** The search loops: the entry for `block`, and the last free entry met.  Both are the number
        of entries if there is none.  Finding the block ends the search of its frame only. */
    method Search(block: nat) returns (entry: nat, free: nat)
      requires Valid()
      ensures entry < |c.entries| ==> Holds(c.entries[entry], block)
      ensures entry == |c.entries| ==> forall i :: 0 <= i < |c.entries| ==> !Holds(c.entries[i], block)
      ensures free < |c.entries| ==> !c.entries[free].valid
      ensures entry <= |c.entries| && free <= |c.entries|
    {
      entry, free := |c.entries|, |c.entries|;
      var frame := 0;
      while frame < |c.entries| / ENTRY_COUNT
        invariant 0 <= frame <= |c.entries| / ENTRY_COUNT
        invariant entry < |c.entries| ==> Holds(c.entries[entry], block)
        invariant entry == |c.entries| ==> forall i :: 0 <= i < frame * ENTRY_COUNT ==> !Holds(c.entries[i], block)
        invariant free < |c.entries| ==> !c.entries[free].valid
        invariant entry <= |c.entries| && free <= |c.entries|
      {
        var i := 0;
        while i < ENTRY_COUNT
          invariant 0 <= i <= ENTRY_COUNT
          invariant entry < |c.entries| ==> Holds(c.entries[entry], block)
          invariant entry == |c.entries| ==> forall j :: 0 <= j < frame * ENTRY_COUNT + i ==>
              !Holds(c.entries[j], block)
          invariant free < |c.entries| ==> !c.entries[free].valid
          invariant entry <= |c.entries| && free <= |c.entries|
        {
          var k := frame * ENTRY_COUNT + i;
          if c.entries[k].valid && c.entries[k].block == block {
            entry := k;
            break;
          }
          if !c.entries[k].valid {
            free := k;
          }
          i := i + 1;
        }
        frame := frame + 1;
      }
    }

    /** pagecache_do_steal: some valid entry is written back and given up. */
    method DoSteal() returns (stolen: bool)
      requires Valid()
      modifies this
      ensures Valid() && writes == old(writes) && |c.entries| == |old(c).entries|
      ensures stolen ==> exists k :: 0 <= k < |old(c).entries| && old(c).entries[k].valid && c == StealAt(old(c), k)
      ensures !stolen ==> c == old(c) && forall i :: 0 <= i < |c.entries| ==> !c.entries[i].valid
      ensures forall i :: 0 <= i < |c.entries| ==> c.entries[i] == old(c).entries[i] || !c.entries[i].valid
    {
      if k :| 0 <= k < |c.entries| && c.entries[k].valid {
        StealKeepsView(c, k);
        AgreesSame(c, StealAt(c, k), writes, initial);
        var block, data := c.entries[k].block, c.entries[k].data;
        c := c.(entries := c.entries[k := c.entries[k].(valid := false)]);
        c := c.(disk := c.disk[block := data]);
        return true;
      }
      return false;
    }

    /** pagecache_steal, called by kalloc when it is short of pages. */
    method Steal() returns (stolen: bool)
      requires Valid()
      modifies this
      ensures Valid() && writes == old(writes)
    {
      stolen := DoSteal();
    }

    /** get_pagecache_entry_of_index up to releasing the list lock.  A free entry is claimed for the
        block with whatever its page holds; after stealing a page the source gives up on caching. */
    method GetEntry(block: nat) returns (s: Slot, hit: bool, ghost b: Cache)
      requires Valid()
      modifies this
      ensures Valid() || s.At? || s.NullPage?
      ensures writes == old(writes)
      ensures s.At? && hit ==> Valid() && s.k < |c.entries| && Holds(c.entries[s.k], block)
      ensures s.At? && !hit ==>
                && |c.entries| % ENTRY_COUNT == 0 && Unique(b.entries) && Agrees(b, writes, initial)
                && ClaimedIn(b, c, s.k, block)
      ensures s.NoEntry? ==> forall i :: 0 <= i < |c.entries| ==> !Holds(c.entries[i], block)
      ensures s.NullPage? ==> forall i :: 0 <= i < |old(c).entries| ==> !old(c).entries[i].valid
    {
      hit, b := false, c;
      var entry, free := Search(block);
      if entry < |c.entries| {
        UpdateView(c, entry, c.entries[entry].(secondChance := true));
        ViewOfEntry(c, entry);
        AgreesTouched(c, entry, c.entries[entry].(secondChance := true), writes, initial);
        c := c.(entries := c.entries[entry := c.entries[entry].(secondChance := true)]);
        return At(entry), true, c;
      }
      if free == |c.entries| {
        var ok := KallocForPageCache();
        if !ok {
          return NoEntry, false, c;
        }
        free := |c.entries|;
        var more := seq(ENTRY_COUNT, i => EMPTY);
        GrowView(c, more);
        AgreesSame(c, c.(entries := c.entries + more), writes, initial);
        c := c.(entries := c.entries + more);
      }
      var ok := KallocForPageCache();
      if !ok {
        assert forall i :: 0 <= i < |old(c).entries| ==> c.entries[i] == old(c).entries[i];
        var stolen := DoSteal();
        if stolen {
          return NoEntry, false, c;
        }
        return NullPage, false, c;
      }
      b := c;
      c := c.(entries := c.entries[free := c.entries[free].(valid := true, block := block, secondChance := false)]);
      assert c == b.(entries := b.entries[free := Entry(true, block, c.entries[free].data, c.entries[free].dirty,
          false)]);
      return At(free), false, b;
    }

    /** pagecache_read. */
    method Read(block: nat) returns (data: Page, ok: bool)
      requires Valid()
      modifies this
      ensures writes == old(writes)
      ensures ok ==> Valid() && data == LastWritten(writes, initial, block)
      ensures ok ==> forall i :: 0 <= i < |c.entries| && Holds(c.entries[i], block) ==> !c.entries[i].secondChance
      ensures !ok ==> forall i :: 0 <= i < |old(c).entries| ==> !old(c).entries[i].valid
    {
      var s, hit, b := GetEntry(block);
      if s.NullPage? {
        return [], false;
      }
      if s.NoEntry? {
        ViewOfDisk(c, block);
        return DiskAt(c.disk, block), true;
      }
      if !hit {
        Populated(b, s.k, block, c.entries[s.k].dirty, writes, initial);
        c := c.(entries := c.entries[s.k := c.entries[s.k].(data := DiskAt(c.disk, block))]);
        assert c == FillAt(b, s.k, block, DiskAt(b.disk, block), c.entries[s.k].dirty);
      }
      ViewOfEntry(c, s.k);
      AgreesTouched(c, s.k, c.entries[s.k].(secondChance := false), writes, initial);
      c := c.(entries := c.entries[s.k := c.entries[s.k].(secondChance := false)]);
      return c.entries[s.k].data, true;
    }

    /** pagecache_write. */
    method Write(block: nat, data: Page) returns (ok: bool)
      requires Valid()
      modifies this
      ensures ok ==> Valid() && writes == old(writes) + [(block, data)]
      ensures ok ==> forall i :: 0 <= i < |c.entries| && Holds(c.entries[i], block) ==>
          c.entries[i].dirty && !c.entries[i].secondChance
      ensures !ok ==> forall i :: 0 <= i < |old(c).entries| ==> !old(c).entries[i].valid
    {
      var s, hit, b := GetEntry(block);
      if s.NullPage? {
        return false;
      }
      ghost var before := writes;
      writes := writes + [(block, data)];
      if s.NoEntry? {
        PassThroughView(c, block, data);
        AgreesWrite(c, c.(disk := c.disk[block := data]), before, initial, block, data);
        c := c.(disk := c.disk[block := data]);
        return true;
      }
      var e := c.entries[s.k].(secondChance := false, dirty := true, data := data);
      if hit {
        UpdateView(c, s.k, e);
        AgreesWrite(c, c.(entries := c.entries[s.k := e]), before, initial, block, data);
      } else {
        FillView(b, s.k, block, data, true);
        AgreesWrite(b, FillAt(b, s.k, block, data, true), before, initial, block, data);
        assert c.(entries := c.entries[s.k := e]) == FillAt(b, s.k, block, data, true);
      }
      c := c.(entries := c.entries[s.k := e]);
      return true;
    }
  }

  /** Flags of an entry do not matter to the view. */
  lemma AgreesTouched(c: Cache, k: nat, e: Entry, writes: seq<(nat, Page)>, initial: map<nat, Page>)
    requires Unique(c.entries) && k < |c.entries| && c.entries[k].valid && e.valid
    requires e.block == c.entries[k].block && e.data == c.entries[k].data && Agrees(c, writes, initial)
    ensures Unique(c.entries[k := e]) && Agrees(c.(entries := c.entries[k := e]), writes, initial)
  {
    UpdateView(c, k, e);
    ViewOfEntry(c, k);
    AgreesSame(c, c.(entries := c.entries[k := e]), writes, initial);
  }

  /** A free entry filled from disk. */
  lemma Populated(b: Cache, k: nat, block: nat, dirty: bool, writes: seq<(nat, Page)>, initial: map<nat, Page>)
    requires Unique(b.entries) && k < |b.entries| && !b.entries[k].valid && Agrees(b, writes, initial)
    requires forall i :: 0 <= i < |b.entries| ==> !Holds(b.entries[i], block)
    ensures var c := FillAt(b, k, block, DiskAt(b.disk, block), dirty);
            Unique(c.entries) && Agrees(c, writes, initial)
  {
    FillView(b, k, block, DiskAt(b.disk, block), dirty);
    ViewOfDisk(b, block);
    AgreesSame(b, FillAt(b, k, block, DiskAt(b.disk, block), dirty), writes, initial);
  }
}
