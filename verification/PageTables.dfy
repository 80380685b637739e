/** Four-level page tables as trees of frames, and the flat map from virtual pages to page table
    entries that they stand for.  Frames and virtual pages are numbered; the height of a table is
    its level plus one, so the root has height 4 and the tables holding leaf entries height 1. */
module PageTables {
  import opened Basics

  const ENTRIES: int := 512
  const USER_ENTRIES: int := 128        // root entries below VA_MAX
  const VPN_MIN: int := 1024            // VA_MIN, 4 MB, in pages
  const VPN_MAX: int := 0x4_0000_0000   // VA_MAX, 2^46 bytes, in pages

  datatype Pte = Pte(present: bool, rw: bool, us: bool, xd: bool, huge: bool, address: nat)

  const ABSENT: Pte := Pte(false, false, false, false, false, 0)

  /** The entry walk writes for a new inner table: generous access bits. */
  function Link(frame: nat): Pte {
    Pte(true, true, true, false, false, frame)
  }

  function ZeroTable(): seq<Pte> {
    seq(ENTRIES, i => ABSENT)
  }

  /** The position of a table: whose tree, which height, and the leading part of the page numbers
      it covers. */
  datatype Tag = Tag(root: nat, height: nat, prefix: nat)

  datatype Mem = Mem(
    free: seq<nat>,                  // the list of free pages, head first
    tables: map<nat, seq<Pte>>,      // contents of frames used as page tables
    bytes: map<nat, seq<int>>,       // contents of frames used for data
    at: map<Tag, nat>,               // which frame holds the table at each position
    owner: map<nat, (nat, nat)>,     // which root and page a data frame is mapped for
    kernel: set<nat>,                // frames of the kernel's own tables
    kernelRoot: seq<Pte>)            // contents of the kernel's root table

  // ----- splitting page numbers

  function Prefix(vpn: nat, h: nat): nat {
    if h == 0 then vpn else Prefix(vpn, h - 1) / ENTRIES
  }

  /** The entry of a table of height `h` that covers page `vpn`. */
  function Index(vpn: nat, h: nat): (i: nat)
    requires h >= 1
    ensures i < ENTRIES
  {
    Prefix(vpn, h - 1) % ENTRIES
  }

  /** PTE_INDEX_FROM_VA: shift out the page offset and the lower levels, keep nine bits. */
  function PteIndexFromVa(va: nat, level: nat): nat
    requires level <= 3
  {
    (if level == 0 then va / 4096
     else if level == 1 then va / 4096 / 0x200
     else if level == 2 then va / 4096 / 0x4_0000
     else va / 4096 / 0x800_0000) % 512
  }

  lemma IndexIsMacro(va: nat, level: nat)
    requires level <= 3
    ensures Index(va / 4096, level + 1) == PteIndexFromVa(va, level)
  {
    var vpn := va / 4096;
    assert Prefix(vpn, 1) == vpn / 512;
    assert Prefix(vpn, 2) == vpn / 512 / 512 == vpn / 0x4_0000;
    assert Prefix(vpn, 3) == Prefix(vpn, 2) / 512 == vpn / 0x4_0000 / 512 == vpn / 0x800_0000;
  }

  lemma PrefixBound(vpn: nat)
    requires vpn < VPN_MAX
    ensures Prefix(vpn, 4) == 0 && Prefix(vpn, 3) < USER_ENTRIES
    ensures Prefix(vpn, 2) < 0x1_0000 && Prefix(vpn, 1) < 0x200_0000
    ensures vpn >= VPN_MIN ==> Prefix(vpn, 1) >= 2
  {
    assert Prefix(vpn, 1) == vpn / 512;
    assert Prefix(vpn, 2) == Prefix(vpn, 1) / 512;
    assert Prefix(vpn, 3) == Prefix(vpn, 2) / 512;
    assert Prefix(vpn, 4) == Prefix(vpn, 3) / 512;
  }

  predicate TagOk(t: Tag) {
    && 1 <= t.height <= 4
    && (t.height == 4 ==> t.prefix == 0)
    && (t.height == 3 ==> t.prefix < USER_ENTRIES)
    && (t.height == 2 ==> t.prefix < 0x1_0000)
    && (t.height == 1 ==> 2 <= t.prefix < 0x200_0000)
  }

  /** Entries of the root at or above VA_MAX belong to the kernel. */
  predicate UserSlot(t: Tag, i: int) {
    0 <= i < ENTRIES && (t.height == 4 ==> i < USER_ENTRIES)
  }

  function Child(t: Tag, i: nat): Tag
    requires t.height >= 1
  {
    Tag(t.root, t.height - 1, t.prefix * ENTRIES + i)
  }

  function Parent(t: Tag): Tag {
    Tag(t.root, t.height + 1, t.prefix / ENTRIES)
  }

  /** The position of the table of height `h` on the way to page `vpn`. */
  function OnPath(root: nat, vpn: nat, h: nat): Tag {
    Tag(root, h, Prefix(vpn, h))
  }

  lemma PathStep(root: nat, vpn: nat, h: nat)
    requires 1 <= h <= 4 && vpn < VPN_MAX
    ensures OnPath(root, vpn, h - 1) == Child(OnPath(root, vpn, h), Index(vpn, h))
    ensures UserSlot(OnPath(root, vpn, h), Index(vpn, h))
  {
    PrefixBound(vpn);
  }

  lemma PathOk(root: nat, vpn: nat, h: nat)
    requires 1 <= h <= 4 && VPN_MIN <= vpn < VPN_MAX
    ensures TagOk(OnPath(root, vpn, h))
  {
    PrefixBound(vpn);
  }

  // ----- the tree

  /** The table at position `t` is there, is not free, and is nowhere else. */
  ghost predicate TableOk(m: Mem, t: Tag)
    requires t in m.at
  {
    && TagOk(t)
    && m.at[t] in m.tables && |m.tables[m.at[t]]| == ENTRIES
    && m.at[t] !in m.free && m.at[t] !in m.kernel && m.at[t] !in m.owner
    && (t.height == 4 ==> m.at[t] == t.root)
    && (t.height < 4 ==> Parent(t) in m.at)
  }

  /** Entry `i` of the kernel's root. */
  function KernelEntry(m: Mem, i: nat): Pte {
    if i < |m.kernelRoot| then m.kernelRoot[i] else ABSENT
  }

  /** In the user range an inner entry is present exactly when there is a table below it, and then
      points to it and restricts nothing.  Above the user range a root has the kernel's entries.
      No entry is a huge page. */
  ghost predicate EntryOk(m: Mem, t: Tag, i: nat)
    requires t in m.at && m.at[t] in m.tables && |m.tables[m.at[t]]| == ENTRIES && i < ENTRIES
  {
    var e := m.tables[m.at[t]][i];
    && !e.huge
    && (UserSlot(t, i) && t.height > 1 ==>
          && (e.present <==> Child(t, i) in m.at)
          && (e.present ==> e.address == m.at[Child(t, i)] && e.rw && e.us && !e.xd))
    && (!UserSlot(t, i) ==> e == KernelEntry(m, i))
  }

  ghost predicate Tree(m: Mem) {
    && (forall t :: t in m.at ==> TableOk(m, t))
    && (forall t, i: nat :: t in m.at && i < ENTRIES ==> EntryOk(m, t, i))
    && (forall t, u :: t in m.at && u in m.at && m.at[t] == m.at[u] ==> t == u)
  }

  lemma OneFramePerTable(m: Mem, t: Tag, u: Tag)
    requires Tree(m) && t in m.at && u in m.at && m.at[t] == m.at[u]
    ensures t == u
  {
  }

  lemma TableAt(m: Mem, t: Tag)
    requires Tree(m) && t in m.at
    ensures TableOk(m, t)
  {
  }

  lemma EntryAt(m: Mem, t: Tag, i: nat)
    requires Tree(m) && t in m.at && i < ENTRIES
    ensures TableOk(m, t) && EntryOk(m, t, i)
  {
    assert TableOk(m, t);
  }

  lemma EntryThere(m: Mem, t: Tag, i: nat)
    requires Tree(m) && t in m.at && i < ENTRIES
    ensures m.at[t] in m.tables && |m.tables[m.at[t]]| == ENTRIES && EntryOk(m, t, i)
  {
    EntryAt(m, t, i);
  }

  // ----- translation

  /** The access a leaf gives below an inner entry: what both allow. */
  function Restrict(leaf: Pte, inner: Pte): Pte {
    leaf.(rw := leaf.rw && inner.rw, us := leaf.us && inner.us, xd := leaf.xd || inner.xd)
  }

  /** What the hardware does: follow present entries from a table of height `h` down to a leaf, and
      combine the access bits of all levels (section 4.6 of volume 3A of the Intel manual). */
  function Lookup(m: Mem, f: nat, vpn: nat, h: nat): Option<Pte>
    requires h >= 1
    decreases h
  {
    if f !in m.tables || |m.tables[f]| != ENTRIES then None
    else
      var e := m.tables[f][Index(vpn, h)];
      if !e.present then None
      else if h == 1 then Some(e)
      else
        var below := Lookup(m, e.address, vpn, h - 1);
        if below.Some? then Some(Restrict(below.value, e)) else None
  }

  /** The flat view: the leaf entry at the position that covers `vpn`. */
  function Translate(m: Mem, root: nat, vpn: nat): Option<Pte> {
    var t := OnPath(root, vpn, 1);
    if t in m.at && m.at[t] in m.tables && |m.tables[m.at[t]]| == ENTRIES && m.tables[m.at[t]][Index(vpn, 1)].present
    then Some(m.tables[m.at[t]][Index(vpn, 1)]) else None
  }

  lemma {:induction false} LookupFromHeight(m: Mem, root: nat, vpn: nat, h: nat)
    requires Tree(m) && vpn < VPN_MAX && 1 <= h <= 4 && OnPath(root, vpn, h) in m.at
    ensures Lookup(m, m.at[OnPath(root, vpn, h)], vpn, h) == Translate(m, root, vpn)
    decreases h
  {
    hide Tree, Prefix, TableOk;
    var t := OnPath(root, vpn, h);
    EntryThere(m, t, Index(vpn, h));
    if h > 1 {
      PathStep(root, vpn, h);
      if OnPath(root, vpn, h - 1) in m.at {
        LookupFromHeight(m, root, vpn, h - 1);
      } else {
        MissingBelow(m, root, vpn, h - 1);
      }
    }
  }

  /** A position with nothing at it has nothing below it either. */
  lemma {:induction false} MissingBelow(m: Mem, root: nat, vpn: nat, h: nat)
    requires Tree(m) && vpn < VPN_MAX && 1 <= h <= 3 && OnPath(root, vpn, h) !in m.at
    ensures OnPath(root, vpn, 1) !in m.at
    decreases h
  {
    if h > 1 {
      var below := OnPath(root, vpn, h - 1);
      assert below in m.at ==> TableOk(m, below);
      assert Parent(below) == OnPath(root, vpn, h);
      MissingBelow(m, root, vpn, h - 1);
    }
  }

  /** The four-level walk computes the flat map, access bits included: the rights the processor grants
      are those of the leaf entry. */
  lemma LookupIsTranslate(m: Mem, root: nat, vpn: nat)
    requires Tree(m) && vpn < VPN_MAX && Tag(root, 4, 0) in m.at
    ensures Lookup(m, root, vpn, 4) == Translate(m, root, vpn)
  {
    PrefixBound(vpn);
    assert TableOk(m, Tag(root, 4, 0));
    LookupFromHeight(m, root, vpn, 4);
  }

  /** Every root has the kernel's entries above the user range. */
  lemma KernelHalf(m: Mem, root: nat, i: nat)
    requires Tree(m) && Tag(root, 4, 0) in m.at && USER_ENTRIES <= i < ENTRIES
    ensures root in m.tables && |m.tables[root]| == ENTRIES && m.tables[root][i] == KernelEntry(m, i)
  {
    hide Tree;
    EntryAt(m, Tag(root, 4, 0), i);
  }

  // ----- writing entries

  function SetEntry(m: Mem, f: nat, i: nat, e: Pte): Mem
    requires f in m.tables && i < |m.tables[f]|
  {
    m.(tables := m.tables[f := m.tables[f][i := e]])
  }

  /** The flat view after mapping one page of one tree. */
  ghost predicate OnlyChanged(m: Mem, m': Mem, root: nat, vpn: nat, e: Pte) {
    forall r: nat, v: nat :: Translate(m', r, v) ==
      if r == root && v == vpn then (if e.present then Some(e) else None) else Translate(m, r, v)
  }

  lemma SetLeafTree(m: Mem, root: nat, vpn: nat, e: Pte)
    requires Tree(m) && OnPath(root, vpn, 1) in m.at && m.at[OnPath(root, vpn, 1)] in m.tables
    requires |m.tables[m.at[OnPath(root, vpn, 1)]]| == ENTRIES && !e.huge
    ensures Tree(SetEntry(m, m.at[OnPath(root, vpn, 1)], Index(vpn, 1), e))
  {
    var m' := SetEntry(m, m.at[OnPath(root, vpn, 1)], Index(vpn, 1), e);
    forall u | u in m'.at ensures TableOk(m', u) {
      TableAt(m, u);
    }
    forall u, i: nat | u in m'.at && i < ENTRIES ensures EntryOk(m', u, i) {
      SetLeafEntry(m, root, vpn, e, u, i);
    }
  }

  lemma SetLeafEntry(m: Mem, root: nat, vpn: nat, e: Pte, u: Tag, i: nat)
    requires Tree(m) && OnPath(root, vpn, 1) in m.at && m.at[OnPath(root, vpn, 1)] in m.tables
    requires |m.tables[m.at[OnPath(root, vpn, 1)]]| == ENTRIES && !e.huge
    requires u in m.at && i < ENTRIES
    ensures var m' := SetEntry(m, m.at[OnPath(root, vpn, 1)], Index(vpn, 1), e);
            TableOk(m', u) && EntryOk(m', u, i)
  {
    hide Tree;
    EntryAt(m, u, i);
    if m.at[u] == m.at[OnPath(root, vpn, 1)] {
      OneFramePerTable(m, u, OnPath(root, vpn, 1));
    }
  }

  lemma SetLeafAt(m: Mem, root: nat, vpn: nat, e: Pte, r: nat, v: nat)
    requires Tree(m) && OnPath(root, vpn, 1) in m.at && m.at[OnPath(root, vpn, 1)] in m.tables
    requires |m.tables[m.at[OnPath(root, vpn, 1)]]| == ENTRIES && !e.huge
    ensures Translate(SetEntry(m, m.at[OnPath(root, vpn, 1)], Index(vpn, 1), e), r, v) ==
            if r == root && v == vpn then (if e.present then Some(e) else None) else Translate(m, r, v)
  {
    hide Tree;
    var t, u := OnPath(root, vpn, 1), OnPath(r, v, 1);
    if u in m.at && m.at[u] == m.at[t] {
      OneFramePerTable(m, u, t);
      assert v == Prefix(v, 1) * ENTRIES + Index(v, 1);
      assert vpn == Prefix(vpn, 1) * ENTRIES + Index(vpn, 1);
    }
  }

  /** Writing a leaf entry changes the translation of exactly one page of one tree. */
  lemma SetLeaf(m: Mem, root: nat, vpn: nat, e: Pte)
    requires Tree(m) && OnPath(root, vpn, 1) in m.at && m.at[OnPath(root, vpn, 1)] in m.tables
    requires |m.tables[m.at[OnPath(root, vpn, 1)]]| == ENTRIES && !e.huge
    ensures var m' := SetEntry(m, m.at[OnPath(root, vpn, 1)], Index(vpn, 1), e);
            Tree(m') && OnlyChanged(m, m', root, vpn, e)
  {
    hide Tree, Translate, SetEntry;
    SetLeafTree(m, root, vpn, e);
    forall r: nat, v: nat {
      SetLeafAt(m, root, vpn, e, r, v);
    }
  }

  /** Hanging a zeroed frame `g` below entry `i` of the table at `t`. */
  function Grow(m: Mem, t: Tag, i: nat, g: nat): Mem
    requires t in m.at && m.at[t] in m.tables && i < |m.tables[m.at[t]]| && t.height >= 1
  {
    var f := m.at[t];
    m.(tables := m.tables[f := m.tables[f][i := Link(g)]][g := ZeroTable()], at := m.at[Child(t, i) := g])
  }

  ghost predicate Fresh(m: Mem, g: nat) {
    g != 0 && g !in m.free && g !in m.kernel && g !in m.owner && forall t :: t in m.at ==> m.at[t] != g
  }

  lemma GrowTree(m: Mem, t: Tag, i: nat, g: nat)
    requires Tree(m) && t in m.at && 1 < t.height && UserSlot(t, i) && TagOk(Child(t, i))
    requires m.at[t] in m.tables && |m.tables[m.at[t]]| == ENTRIES && !m.tables[m.at[t]][i].present
    requires Fresh(m, g)
    ensures Tree(Grow(m, t, i, g))
  {
    hide TableOk, EntryOk;
    var m' := Grow(m, t, i, g);
    forall u | u in m'.at ensures TableOk(m', u) {
      GrowTable(m, t, i, g, u);
    }
    forall u, j: nat | u in m'.at && j < ENTRIES
      ensures m'.at[u] in m'.tables && |m'.tables[m'.at[u]]| == ENTRIES && EntryOk(m', u, j)
    {
      GrowTable(m, t, i, g, u);
      TableThere(m', u);
      GrowEntry(m, t, i, g, u, j);
    }
  }

  lemma TableThere(m: Mem, t: Tag)
    requires t in m.at && TableOk(m, t)
    ensures m.at[t] in m.tables && |m.tables[m.at[t]]| == ENTRIES
  {
  }

  lemma GrowTable(m: Mem, t: Tag, i: nat, g: nat, u: Tag)
    requires Tree(m) && t in m.at && 1 < t.height && UserSlot(t, i) && TagOk(Child(t, i))
    requires m.at[t] in m.tables && |m.tables[m.at[t]]| == ENTRIES
    requires Fresh(m, g) && u in Grow(m, t, i, g).at
    ensures TableOk(Grow(m, t, i, g), u)
  {
    hide Tree, EntryOk;
    TableAt(m, t);
    if u == Child(t, i) {
      assert Parent(u) == t;
    } else {
      TableAt(m, u);
    }
  }

  lemma GrowEntry(m: Mem, t: Tag, i: nat, g: nat, u: Tag, j: nat)
    requires Tree(m) && t in m.at && 1 < t.height && UserSlot(t, i) && TagOk(Child(t, i))
    requires m.at[t] in m.tables && |m.tables[m.at[t]]| == ENTRIES && !m.tables[m.at[t]][i].present
    requires Fresh(m, g) && u in Grow(m, t, i, g).at && j < ENTRIES
    requires TableOk(Grow(m, t, i, g), u)
    ensures EntryOk(Grow(m, t, i, g), u, j)
  {
    hide Tree;
    var c := Child(t, i);
    EntryAt(m, t, i);
    if u == c {
      NoGrandchild(m, c, j);
    } else {
      EntryAt(m, u, j);
      if m.at[u] == m.at[t] {
        OneFramePerTable(m, u, t);
      }
      if u.height > 1 {
        ChildInjective(u, j, t, i);
      }
    }
  }

  lemma NoGrandchild(m: Mem, c: Tag, j: nat)
    requires Tree(m) && c !in m.at && 1 <= c.height <= 4 && j < ENTRIES
    ensures Child(c, j) !in m.at
  {
    assert Child(c, j) in m.at ==> TableOk(m, Child(c, j));
    assert Parent(Child(c, j)) == c;
  }

  lemma ChildInjective(u: Tag, j: nat, t: Tag, i: nat)
    requires u.height >= 1 && t.height >= 1 && j < ENTRIES && i < ENTRIES
    ensures Child(u, j) == Child(t, i) <==> u == t && i == j
  {
  }

  lemma GrowTranslatesAt(m: Mem, t: Tag, i: nat, g: nat, r: nat, v: nat)
    requires Tree(m) && t in m.at && 1 < t.height && UserSlot(t, i)
    requires m.at[t] in m.tables && |m.tables[m.at[t]]| == ENTRIES && !m.tables[m.at[t]][i].present
    requires Fresh(m, g)
    ensures Translate(Grow(m, t, i, g), r, v) == Translate(m, r, v)
  {
    hide Tree;
    var u := OnPath(r, v, 1);
    EntryAt(m, t, i);
    if u in m.at {
      TableAt(m, u);
      if m.at[u] == m.at[t] {
        OneFramePerTable(m, u, t);
      }
    }
  }

  /** Adding an inner table changes no translation. */
  lemma GrowTranslates(m: Mem, t: Tag, i: nat, g: nat)
    requires Tree(m) && t in m.at && 1 < t.height && UserSlot(t, i)
    requires m.at[t] in m.tables && |m.tables[m.at[t]]| == ENTRIES && !m.tables[m.at[t]][i].present
    requires Fresh(m, g)
    ensures forall r: nat, v: nat :: Translate(Grow(m, t, i, g), r, v) == Translate(m, r, v)
  {
    hide Tree, Translate, Grow, Fresh;
    forall r: nat, v: nat ensures Translate(Grow(m, t, i, g), r, v) == Translate(m, r, v) {
      GrowTranslatesAt(m, t, i, g, r, v);
    }
  }

  // ----- frames

  ghost predicate NoDup(s: seq<nat>) {
    forall i, j :: 0 <= i < j < |s| ==> s[i] != s[j]
  }

  /** No frame is free twice, or free and in use; data frames hold a page of bytes. */
  ghost predicate FramesOk(m: Mem) {
    && NoDup(m.free)
    && 0 !in m.free && 0 !in m.owner && (forall t :: t in m.at ==> m.at[t] != 0)
    && (forall f :: f in m.free ==> f !in m.kernel && f !in m.owner)
    && (forall f :: f in m.owner ==> f !in m.kernel && f in m.bytes && |m.bytes[f]| == 4096)
  }

  /** Every mapped frame is mapped for one page of one root only. */
  ghost predicate Owned(m: Mem) {
    forall r: nat, v: nat :: Translate(m, r, v).Some? ==>
      Translate(m, r, v).value.address in m.owner && m.owner[Translate(m, r, v).value.address] == (r, v)
  }

  ghost predicate MemOk(m: Mem) {
    Tree(m) && FramesOk(m) && Owned(m)
  }

  ghost predicate SameFlat(m: Mem, m': Mem) {
    forall r: nat, v: nat :: Translate(m', r, v) == Translate(m, r, v)
  }

  /** The free list has only lost frames from its head. */
  ghost predicate Shrunk(m: Mem, m': Mem) {
    |m'.free| <= |m.free| && m'.free == m.free[|m.free| - |m'.free|..]
  }

  /** The kernel's own tables are untouched. */
  ghost predicate KernelSame(m: Mem, m': Mem) {
    m'.kernel == m.kernel && m'.kernelRoot == m.kernelRoot && forall f :: f in m.kernel && f in m.tables ==>
        f in m'.tables && m'.tables[f] == m.tables[f]
  }

  function Pop(m: Mem): Mem
    requires m.free != []
  {
    m.(free := m.free[1..])
  }

  lemma PopKeeps(m: Mem)
    requires Tree(m) && FramesOk(m) && m.free != []
    ensures Tree(Pop(m)) && FramesOk(Pop(m)) && SameFlat(m, Pop(m)) && Shrunk(m, Pop(m))
    ensures Fresh(Pop(m), m.free[0])
  {
    var m' := Pop(m);
    assert forall f :: f in m'.free ==> f in m.free;
    forall t | t in m'.at ensures TableOk(m', t) && m.at[t] != m.free[0] {
      TableAt(m, t);
    }
    forall t, i: nat | t in m'.at && i < ENTRIES ensures EntryOk(m', t, i) {
      EntryAt(m, t, i);
    }
    assert m.free[0] !in m'.free;
  }

  lemma OwnedBySameFlat(m: Mem, m': Mem)
    requires Owned(m) && SameFlat(m, m') && m'.owner == m.owner
    ensures Owned(m')
  {
  }
}
