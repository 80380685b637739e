/** The virtual memory manager: page allocation, walking and building page tables, mapping and
    copying through them, proved against the flat view of PageTables. */
module Vmm {
  import opened Basics
  import opened PageTables

  const PAGE_SIZE: int := 4096

  datatype Perm = Perm(writable: bool, executable: bool, userspace: bool)

  /** The leaf entry for a page with given permissions. */
  function Leaf(perm: Perm, frame: nat): Pte {
    Pte(true, perm.writable, perm.userspace, !perm.executable, false, frame)
  }

  /** The result of walk: the place of a leaf entry, nothing (absent, or out of memory), or a panic. */
  datatype WalkResult = Entry(table: nat, index: nat) | NoEntry | WalkPanic

  datatype Outcome = Ok | Oom | Panic

  function ZeroPage(): seq<int> {
    seq(PAGE_SIZE, i => 0)
  }

  predicate UserPage(vpn: int) {
    VPN_MIN <= vpn < VPN_MAX
  }

  /** `root` is the root of a user page table. */
  predicate IsRoot(m: Mem, root: nat) {
    Tag(root, 4, 0) in m.at
  }

  // ----- facts about one table on the way down

  lemma RootOnPath(m: Mem, root: nat, vpn: nat)
    requires Tree(m) && IsRoot(m, root) && vpn < VPN_MAX
    ensures OnPath(root, vpn, 4) in m.at && m.at[OnPath(root, vpn, 4)] == root
  {
    PrefixBound(vpn);
    TableAt(m, Tag(root, 4, 0));
  }

  lemma Descend(m: Mem, root: nat, vpn: nat, h: nat)
    requires Tree(m) && UserPage(vpn) && 1 <= h <= 4 && OnPath(root, vpn, h) in m.at
    ensures var t := OnPath(root, vpn, h);
            && m.at[t] in m.tables && |m.tables[m.at[t]]| == ENTRIES
            && UserSlot(t, Index(vpn, h))
            && !m.tables[m.at[t]][Index(vpn, h)].huge
            && (h > 1 ==>
                  && TagOk(Child(t, Index(vpn, h)))
                  && OnPath(root, vpn, h - 1) == Child(t, Index(vpn, h))
                  && (m.tables[m.at[t]][Index(vpn, h)].present <==> OnPath(root, vpn, h - 1) in m.at)
                  && (m.tables[m.at[t]][Index(vpn, h)].present ==>
                        m.tables[m.at[t]][Index(vpn, h)].address == m.at[OnPath(root, vpn, h - 1)]))
  {
    EntryAt(m, OnPath(root, vpn, h), Index(vpn, h));
    PathStep(root, vpn, h);
    if h > 1 {
      PathOk(root, vpn, h - 1);
    }
  }

  lemma NothingBelow(m: Mem, root: nat, vpn: nat, h: nat)
    requires Tree(m) && vpn < VPN_MAX && 1 <= h <= 3 && OnPath(root, vpn, h) !in m.at
    ensures Translate(m, root, vpn) == None
  {
    MissingBelow(m, root, vpn, h);
  }

  lemma LeafIsTranslation(m: Mem, root: nat, vpn: nat)
    requires Tree(m) && OnPath(root, vpn, 1) in m.at
    ensures var f := m.at[OnPath(root, vpn, 1)];
            && f in m.tables && |m.tables[f]| == ENTRIES && f !in m.kernel
            && Translate(m, root, vpn) == if m.tables[f][Index(vpn, 1)].present
                then Some(m.tables[f][Index(vpn, 1)]) else None
  {
    TableAt(m, OnPath(root, vpn, 1));
  }

  lemma GrowKeeps(m: Mem, t: Tag, i: nat, g: nat)
    requires Tree(m) && FramesOk(m) && t in m.at && 1 < t.height && UserSlot(t, i) && TagOk(Child(t, i))
    requires m.at[t] in m.tables && |m.tables[m.at[t]]| == ENTRIES && !m.tables[m.at[t]][i].present
    requires Fresh(m, g)
    ensures var m' := Grow(m, t, i, g);
            && Tree(m') && FramesOk(m') && SameFlat(m, m')
            && m'.at == m.at[Child(t, i) := g] && Child(t, i) !in m.at
            && m'.free == m.free && m'.bytes == m.bytes && m'.owner == m.owner && KernelSame(m, m')
  {
    GrowTree(m, t, i, g);
    GrowTranslates(m, t, i, g);
    EntryAt(m, t, i);
  }

  lemma ShrunkTwice(a: Mem, b: Mem, c: Mem)
    requires Shrunk(a, b) && Shrunk(b, c)
    ensures Shrunk(a, c)
  {
    var k := |a.free| - |b.free|;
    var l := |b.free| - |c.free|;
    assert a.free[k..][l..] == a.free[k + l..];
  }

  /** What walk may do to memory: add inner tables taken from the free list. */
  ghost predicate Walked(m: Mem, m': Mem) {
    && Tree(m') && FramesOk(m')
    && SameFlat(m, m') && Shrunk(m, m')
    && m'.bytes == m.bytes && m'.owner == m.owner && KernelSame(m, m')
    && (forall t :: t in m.at ==> t in m'.at && m'.at[t] == m.at[t])
    && (forall t :: t in m'.at && t !in m.at ==> m'.at[t] in m.free && t.height < 4)
  }

  lemma WalkedPop(m: Mem, n: Mem)
    requires Walked(m, n) && n.free != []
    ensures Walked(m, Pop(n))
    ensures Fresh(Pop(n), n.free[0]) && n.free[0] in m.free
  {
    PopKeeps(n);
    ShrunkTwice(m, n, Pop(n));
    assert n.free[0] == m.free[|m.free| - |n.free|];
  }

  lemma WalkedGrow(m: Mem, n: Mem, t: Tag, i: nat, g: nat)
    requires Walked(m, n) && g in m.free
    requires t in n.at && 1 < t.height <= 4 && UserSlot(t, i) && TagOk(Child(t, i))
    requires n.at[t] in n.tables && |n.tables[n.at[t]]| == ENTRIES && !n.tables[n.at[t]][i].present
    requires Fresh(n, g)
    ensures Walked(m, Grow(n, t, i, g))
    ensures Child(t, i) in Grow(n, t, i, g).at && Grow(n, t, i, g).at[Child(t, i)] == g
  {
    hide Tree, FramesOk, Fresh;
    GrowKeeps(n, t, i, g);
  }

  lemma WalkedSelf(m: Mem)
    requires Tree(m) && FramesOk(m)
    ensures Walked(m, m)
  {
  }

  // ----- mapping

  /** In the flat view, pages `v0` on of `root` now map to `frames`, and nothing else changed. */
  ghost predicate Mapped(m: Mem, m': Mem, root: nat, v0: nat, frames: seq<nat>, perm: Perm) {
    forall r: nat, v: nat :: Translate(m', r, v) ==
      if r == root && v0 <= v < v0 + |frames| then Some(Leaf(perm, frames[v - v0])) else Translate(m, r, v)
  }

  lemma MappedNothing(m: Mem, root: nat, v0: nat, perm: Perm)
    ensures Mapped(m, m, root, v0, [], perm)
  {
  }

  /** One more page: a walk, then a leaf entry. */
  lemma MappedOneMore(m: Mem, cur: Mem, walked: Mem, next: Mem, root: nat, v0: nat, frames: seq<nat>, f: nat,
      perm: Perm)
    requires Mapped(m, cur, root, v0, frames, perm) && SameFlat(cur, walked)
    requires OnlyChanged(walked, next, root, v0 + |frames|, Leaf(perm, f))
    ensures Mapped(m, next, root, v0, frames + [f], perm)
  {
  }

  lemma StillUnmapped(m: Mem, cur: Mem, walked: Mem, root: nat, v0: nat, frames: seq<nat>, perm: Perm)
    requires Mapped(m, cur, root, v0, frames, perm) && SameFlat(cur, walked)
    ensures Translate(walked, root, v0 + |frames|) == Translate(m, root, v0 + |frames|)
  {
  }

  /** Writing a leaf entry that was absent. */
  lemma WriteLeaf(m: Mem, root: nat, vpn: nat, e: Pte)
    requires Tree(m) && FramesOk(m) && OnPath(root, vpn, 1) in m.at && !e.huge
    ensures var f := m.at[OnPath(root, vpn, 1)];
            && f in m.tables && |m.tables[f]| == ENTRIES
            && var m' := SetEntry(m, f, Index(vpn, 1), e);
            && Tree(m') && FramesOk(m') && OnlyChanged(m, m', root, vpn, e)
  {
    TableAt(m, OnPath(root, vpn, 1));
    SetLeaf(m, root, vpn, e);
  }

  /** Everything but the tables of a walk and of leaf writes. */
  ghost predicate SameRest(m: Mem, m': Mem) {
    && Tree(m') && FramesOk(m') && Shrunk(m, m')
    && m'.bytes == m.bytes && m'.owner == m.owner && KernelSame(m, m')
    && (forall t :: t in m.at ==> t in m'.at && m'.at[t] == m.at[t])
    && (forall t :: t in m'.at && t !in m.at ==> m'.at[t] in m.free && t.height < 4)
  }

  lemma SameRestSelf(m: Mem)
    requires Tree(m) && FramesOk(m)
    ensures SameRest(m, m)
  {
  }

  lemma SameRestFacts(m: Mem, cur: Mem, root: nat)
    requires SameRest(m, cur) && IsRoot(m, root)
    ensures Tree(cur) && FramesOk(cur) && IsRoot(cur, root)
  {
  }

  lemma SameRestWalk(m: Mem, cur: Mem, walked: Mem)
    requires SameRest(m, cur) && Walked(cur, walked)
    ensures SameRest(m, walked)
  {
    ShrunkTwice(m, cur, walked);
    assert forall f :: f in cur.free ==> f in m.free;
  }

  lemma SameRestLeaf(m: Mem, walked: Mem, f: nat, i: nat, e: Pte)
    requires SameRest(m, walked) && f in walked.tables && i < |walked.tables[f]| && f !in walked.kernel
    requires Tree(SetEntry(walked, f, i, e)) && FramesOk(SetEntry(walked, f, i, e))
    ensures SameRest(m, SetEntry(walked, f, i, e))
  {
  }

  // ----- allocating

  /** None of the `n` pages from `v0` on is mapped. */
  ghost predicate Unmapped(m: Mem, root: nat, v0: nat, n: nat) {
    forall v: nat :: v0 <= v < v0 + n ==> Translate(m, root, v) == None
  }

  lemma UnmappedNothing(m: Mem, root: nat, v0: nat)
    ensures Unmapped(m, root, v0, 0)
  {
  }

  lemma UnmappedMore(m: Mem, root: nat, v0: nat, n: nat)
    requires Unmapped(m, root, v0, n) && Translate(m, root, v0 + n) == None
    ensures Unmapped(m, root, v0, n + 1)
  {
    hide Translate;
  }

  /** Page number of the address `i` pages above an aligned one. */
  lemma PageOf(va: nat, i: nat)
    requires va % PAGE_SIZE == 0
    ensures (va + i * PAGE_SIZE) / PAGE_SIZE == va / PAGE_SIZE + i
  {
  }

  /** `n` frames in a row. */
  function Consecutive(first: nat, n: nat): (s: seq<nat>)
    ensures |s| == n
  {
    seq(n, i => first + i)
  }

  lemma ConsecutiveMore(first: nat, n: nat)
    ensures Consecutive(first, 0) == [] && Consecutive(first, n) + [first + n] == Consecutive(first, n + 1)
  {
  }

  predicate AllUser(v0: nat, n: nat) {
    forall p: nat :: v0 <= p < v0 + n ==> UserPage(p)
  }

  lemma NoPagesUser(v0: nat)
    ensures AllUser(v0, 0)
  {
  }

  lemma AllUserMore(v0: nat, n: nat)
    requires AllUser(v0, n) && UserPage(v0 + n)
    ensures AllUser(v0, n + 1)
  {
  }

  /** The frames in `frames` were free, and now hold zeroes for the pages from `v0` on. */
  ghost predicate Claimed(m: Mem, m': Mem, root: nat, v0: nat, frames: seq<nat>) {
    forall i :: 0 <= i < |frames| ==>
      && frames[i] in m.free
      && frames[i] in m'.owner && m'.owner[frames[i]] == (root, v0 + i)
      && frames[i] in m'.bytes && m'.bytes[frames[i]] == ZeroPage()
  }

  /** Memory after some pages were allocated: all invariants hold, data frames in use before keep
      their owner and their contents, and tables stay where they were. */
  ghost predicate Kept(m: Mem, m': Mem) {
    && MemOk(m') && Shrunk(m, m') && KernelSame(m, m')
    && (forall f :: f in m.owner ==>
          && f in m'.owner && m'.owner[f] == m.owner[f]
          && f in m.bytes && f in m'.bytes && m'.bytes[f] == m.bytes[f])
    && (forall t :: t in m.at ==> t in m'.at && m'.at[t] == m.at[t])
    && (forall t :: t in m'.at && t !in m.at ==> m'.at[t] in m.free && t.height < 4)
  }

  lemma KeptSelf(m: Mem)
    requires MemOk(m)
    ensures Kept(m, m)
  {
  }

  lemma KeptFacts(m: Mem, cur: Mem, root: nat)
    requires Kept(m, cur) && IsRoot(m, root)
    ensures MemOk(cur) && Tree(cur) && FramesOk(cur) && IsRoot(cur, root)
  {
  }

  lemma KeptPop(m: Mem, cur: Mem)
    requires Kept(m, cur) && cur.free != []
    ensures Kept(m, Pop(cur)) && Tree(Pop(cur)) && FramesOk(Pop(cur)) && SameFlat(cur, Pop(cur))
    ensures Fresh(Pop(cur), cur.free[0]) && cur.free[0] in m.free
  {
    PopKeeps(cur);
    OwnedBySameFlat(cur, Pop(cur));
    ShrunkTwice(m, cur, Pop(cur));
    assert cur.free[0] == m.free[|m.free| - |cur.free|];
  }

  lemma KeptWalk(m: Mem, cur: Mem, walked: Mem)
    requires Kept(m, cur) && Walked(cur, walked)
    ensures Kept(m, walked) && SameFlat(cur, walked)
  {
    hide Tree, FramesOk, SameFlat;
    OwnedBySameFlat(cur, walked);
    ShrunkTwice(m, cur, walked);
    assert forall f :: f in cur.free ==> f in m.free;
  }

  lemma FreshWalk(cur: Mem, walked: Mem, f: nat)
    requires Fresh(cur, f) && Walked(cur, walked)
    ensures Fresh(walked, f)
  {
    assert forall g :: g in walked.free ==> g in cur.free;
  }

  /** The stores of vmm_allocate for one page: the leaf entry, and the cleared frame. */
  function Install(m: Mem, table: nat, index: nat, leaf: Pte, f: nat, root: nat, vpn: nat): Mem
    requires table in m.tables && index < |m.tables[table]|
  {
    SetEntry(m, table, index, leaf).(bytes := m.bytes[f := ZeroPage()], owner := m.owner[f := (root, vpn)])
  }

  lemma InstallTree(m: Mem, root: nat, vpn: nat, leaf: Pte, f: nat)
    requires Tree(m) && FramesOk(m) && OnPath(root, vpn, 1) in m.at && !leaf.huge && Fresh(m, f)
    ensures var table := m.at[OnPath(root, vpn, 1)];
            && table in m.tables && |m.tables[table]| == ENTRIES
            && var m' := Install(m, table, Index(vpn, 1), leaf, f, root, vpn);
            && Tree(m') && FramesOk(m') && OnlyChanged(m, m', root, vpn, leaf)
  {
    WriteLeaf(m, root, vpn, leaf);
    var n := SetEntry(m, m.at[OnPath(root, vpn, 1)], Index(vpn, 1), leaf);
    ClaimKeeps(n, f, root, vpn);
  }

  lemma ClaimTree(n: Mem, f: nat, root: nat, vpn: nat)
    requires Tree(n) && Fresh(n, f)
    ensures Tree(n.(bytes := n.bytes[f := ZeroPage()], owner := n.owner[f := (root, vpn)]))
  {
    var m' := n.(bytes := n.bytes[f := ZeroPage()], owner := n.owner[f := (root, vpn)]);
    forall t | t in m'.at ensures TableOk(m', t) {
      TableAt(n, t);
    }
    forall t, i: nat | t in m'.at && i < ENTRIES ensures EntryOk(m', t, i) {
      EntryAt(n, t, i);
    }
  }

  lemma ClaimFrames(n: Mem, f: nat, root: nat, vpn: nat)
    requires FramesOk(n) && Fresh(n, f)
    ensures FramesOk(n.(bytes := n.bytes[f := ZeroPage()], owner := n.owner[f := (root, vpn)]))
  {
  }

  lemma ClaimKeeps(n: Mem, f: nat, root: nat, vpn: nat)
    requires Tree(n) && FramesOk(n) && Fresh(n, f)
    ensures var m' := n.(bytes := n.bytes[f := ZeroPage()], owner := n.owner[f := (root, vpn)]);
            Tree(m') && FramesOk(m') && SameFlat(n, m')
  {
    hide Tree, FramesOk, Fresh;
    ClaimTree(n, f, root, vpn);
    ClaimFrames(n, f, root, vpn);
  }

  lemma InstallOwned(m: Mem, m': Mem, root: nat, vpn: nat, leaf: Pte, f: nat)
    requires Owned(m) && OnlyChanged(m, m', root, vpn, leaf) && leaf.present && leaf.address == f
    requires f !in m.owner && m'.owner == m.owner[f := (root, vpn)]
    ensures Owned(m')
  {
    hide Translate;
    forall r: nat, v: nat | Translate(m', r, v).Some?
      ensures Translate(m', r, v).value.address in m'.owner && m'.owner[Translate(m', r, v).value.address] == (r, v)
    {
      assert !(r == root && v == vpn) ==> Translate(m', r, v) == Translate(m, r, v);
    }
  }

  lemma InstallKept(m: Mem, walked: Mem, root: nat, vpn: nat, leaf: Pte, f: nat)
    requires Kept(m, walked) && OnPath(root, vpn, 1) in walked.at && !leaf.huge && Fresh(walked, f)
    requires leaf.present && leaf.address == f
    ensures var table := walked.at[OnPath(root, vpn, 1)];
            && table in walked.tables && |walked.tables[table]| == ENTRIES
            && var m' := Install(walked, table, Index(vpn, 1), leaf, f, root, vpn);
            && Kept(m, m') && OnlyChanged(walked, m', root, vpn, leaf)
  {
    hide Tree, FramesOk, Owned, OnlyChanged;
    TableAt(walked, OnPath(root, vpn, 1));
    InstallTree(walked, root, vpn, leaf, f);
    var m' := Install(walked, walked.at[OnPath(root, vpn, 1)], Index(vpn, 1), leaf, f, root, vpn);
    FreshFacts(walked, f);
    InstallOwned(walked, m', root, vpn, leaf, f);
  }

  lemma FreshFacts(m: Mem, f: nat)
    requires Fresh(m, f)
    ensures f !in m.owner
  {
  }

  lemma ClaimedOneMore(m: Mem, cur: Mem, walked: Mem, m': Mem, root: nat, v0: nat, frames: seq<nat>, f: nat)
    requires Claimed(m, cur, root, v0, frames) && f in m.free && f !in walked.owner
    requires walked.bytes == cur.bytes && walked.owner == cur.owner
    requires m'.bytes == walked.bytes[f := ZeroPage()] && m'.owner == walked.owner[f := (root, v0 + |frames|)]
    ensures Claimed(m, m', root, v0, frames + [f])
  {
    var all := frames + [f];
    assert forall i :: 0 <= i < |frames| ==> all[i] == frames[i];
  }

  lemma ClaimedSame(m: Mem, cur: Mem, m': Mem, root: nat, v0: nat, frames: seq<nat>)
    requires Claimed(m, cur, root, v0, frames) && m'.bytes == cur.bytes && m'.owner == cur.owner
    ensures Claimed(m, m', root, v0, frames)
  {
  }

  /** Different pages got different frames. */
  lemma ClaimedDistinct(m: Mem, m': Mem, root: nat, v0: nat, frames: seq<nat>)
    requires Claimed(m, m', root, v0, frames)
    ensures NoDup(frames)
  {
    forall i, j | 0 <= i < j < |frames| ensures frames[i] != frames[j] {
      assert m'.owner[frames[i]] == (root, v0 + i) && m'.owner[frames[j]] == (root, v0 + j);
    }
  }

  // ----- reading and writing through a page table

  /** The byte at virtual address `va`, if its page is mapped. */
  function Peek(m: Mem, root: nat, va: nat): Option<int> {
    var e := Translate(m, root, va / PAGE_SIZE);
    if e.Some? && e.value.address in m.bytes && |m.bytes[e.value.address]| == PAGE_SIZE
    then Some(m.bytes[e.value.address][va % PAGE_SIZE]) else None
  }

  /** Reading `[dst, dst + |data|)` of `root` now gives `data`, and no other byte changed. */
  ghost predicate Written(m: Mem, m': Mem, root: nat, dst: nat, data: seq<int>) {
    forall r: nat, va: nat :: Peek(m', r, va) ==
      if r == root && dst <= va < dst + |data| then Some(data[va - dst]) else Peek(m, r, va)
  }

  lemma WrittenNothing(m: Mem, root: nat, dst: nat)
    ensures Written(m, m, root, dst, [])
  {
  }

  lemma WrittenMore(m: Mem, cur: Mem, next: Mem, root: nat, dst: nat, d1: seq<int>, d2: seq<int>)
    requires Written(m, cur, root, dst, d1) && Written(cur, next, root, dst + |d1|, d2)
    ensures Written(m, next, root, dst, d1 + d2)
  {
  }

  /** A page vmm_memcpy may write to. */
  predicate Writable(m: Mem, root: nat, vpn: nat, userspace: bool) {
    && UserPage(vpn)
    && var e := Translate(m, root, vpn);
    && e.Some? && e.value.us == userspace && e.value.rw
  }

  function Splice(page: seq<int>, off: nat, data: seq<int>): seq<int>
    requires off + |data| <= |page|
  {
    page[..off] + data + page[off + |data|..]
  }

  function StoreBytes(m: Mem, f: nat, off: nat, data: seq<int>): Mem
    requires f in m.bytes && off + |data| <= |m.bytes[f]|
  {
    m.(bytes := m.bytes[f := Splice(m.bytes[f], off, data)])
  }

  lemma StoreBytesKeeps(m: Mem, f: nat, off: nat, data: seq<int>)
    requires MemOk(m) && f in m.bytes && off + |data| <= |m.bytes[f]|
    ensures MemOk(StoreBytes(m, f, off, data)) && SameFlat(m, StoreBytes(m, f, off, data))
  {
    var m' := StoreBytes(m, f, off, data);
    forall t | t in m'.at ensures TableOk(m', t) {
      TableAt(m, t);
    }
    forall t, i: nat | t in m'.at && i < ENTRIES ensures EntryOk(m', t, i) {
      EntryAt(m, t, i);
    }
    OwnedBySameFlat(m, m');
  }

  lemma OwnedFrame(m: Mem, root: nat, vpn: nat)
    requires MemOk(m) && Translate(m, root, vpn).Some?
    ensures var f := Translate(m, root, vpn).value.address;
            f != 0 && f in m.owner && m.owner[f] == (root, vpn) && f in m.bytes && |m.bytes[f]| == PAGE_SIZE
  {
  }

  /** A mapped page has a frame other than 0, the address that means "not mapped". */
  lemma FrameNotZero(m: Mem, root: nat, vpn: nat)
    requires MemOk(m)
    ensures Translate(m, root, vpn).Some? ==> Translate(m, root, vpn).value.address != 0
  {
    hide Translate, Tree;
    if Translate(m, root, vpn).Some? {
      OwnedFrame(m, root, vpn);
    }
  }

  lemma StoreBytesAt(m: Mem, root: nat, vpn: nat, off: nat, data: seq<int>, r: nat, va: nat)
    requires MemOk(m) && Translate(m, root, vpn).Some?
    requires var f := Translate(m, root, vpn).value.address;
             f in m.bytes && |m.bytes[f]| == PAGE_SIZE && off + |data| <= PAGE_SIZE
    requires SameFlat(m, StoreBytes(m, Translate(m, root, vpn).value.address, off, data))
    ensures var dst := vpn * PAGE_SIZE + off;
            Peek(StoreBytes(m, Translate(m, root, vpn).value.address, off, data), r, va) ==
            if r == root && dst <= va < dst + |data| then Some(data[va - dst]) else Peek(m, r, va)
  {
    hide MemOk, Translate;
    OwnedFrame(m, root, vpn);
    var page := va / PAGE_SIZE;
    assert va == page * PAGE_SIZE + va % PAGE_SIZE;
    if Translate(m, r, page).Some? {
      OwnedFrame(m, r, page);
    }
  }

  /** Storing into the frame behind a page changes those bytes of that page of that root only. */
  lemma StoreBytesWritten(m: Mem, root: nat, vpn: nat, off: nat, data: seq<int>)
    requires MemOk(m) && Translate(m, root, vpn).Some? && off + |data| <= PAGE_SIZE
    ensures var f := Translate(m, root, vpn).value.address;
            && f in m.bytes && |m.bytes[f]| == PAGE_SIZE
            && var m' := StoreBytes(m, f, off, data);
            && MemOk(m') && SameFlat(m, m') && Written(m, m', root, vpn * PAGE_SIZE + off, data)
  {
    hide MemOk, SameFlat, StoreBytes, Translate, Peek;
    OwnedFrame(m, root, vpn);
    StoreBytesKeeps(m, Translate(m, root, vpn).value.address, off, data);
    forall r: nat, va: nat {
      StoreBytesAt(m, root, vpn, off, data, r, va);
    }
  }

  /** Memory in which only bytes of data frames differ. */
  ghost predicate SameButBytes(m: Mem, m': Mem) {
    MemOk(m') && SameFlat(m, m') && m' == m.(bytes := m'.bytes)
  }

  /** A frame given back: its contents are lost. */
  function Push(m: Mem, f: nat): Mem {
    m.(free := [f] + m.free, tables := m.tables - {f}, bytes := m.bytes - {f})
  }

  /** What vmm_allocate has done when it has mapped `frames`. */
  ghost predicate Allocated(m: Mem, m': Mem, root: nat, v0: nat, frames: seq<nat>, perm: Perm) {
    && Kept(m, m') && Claimed(m, m', root, v0, frames)
    && Mapped(m, m', root, v0, frames, perm) && Unmapped(m, root, v0, |frames|)
  }

  lemma AllocatedNothing(m: Mem, root: nat, v0: nat, perm: Perm)
    requires MemOk(m)
    ensures Allocated(m, m, root, v0, [], perm)
  {
    hide MemOk, Translate;
    KeptSelf(m);
    ClaimedNothing(m, root, v0);
    MappedNothing(m, root, v0, perm);
    UnmappedNothing(m, root, v0);
  }

  lemma AllocatedParts(m: Mem, m': Mem, root: nat, v0: nat, frames: seq<nat>, perm: Perm)
    requires Allocated(m, m', root, v0, frames, perm) && IsRoot(m, root)
    ensures Kept(m, m') && Claimed(m, m', root, v0, frames)
    ensures Mapped(m, m', root, v0, frames, perm) && Unmapped(m, root, v0, |frames|) && NoDup(frames)
    ensures Tree(m') && FramesOk(m') && IsRoot(m', root)
  {
    hide MemOk, Kept, Claimed, Mapped, Unmapped;
    KeptFacts(m, m', root);
    ClaimedDistinct(m, m', root, v0, frames);
  }

  lemma AllocatedPopped(m: Mem, cur: Mem, root: nat, v0: nat, frames: seq<nat>, perm: Perm)
    requires Allocated(m, cur, root, v0, frames, perm) && IsRoot(m, root) && cur.free != []
    ensures Tree(Pop(cur)) && FramesOk(Pop(cur)) && IsRoot(Pop(cur), root)
    ensures Fresh(Pop(cur), cur.free[0]) && cur.free[0] in m.free && Kept(m, Pop(cur)) && SameFlat(cur, Pop(cur))
    ensures Pop(cur).bytes == cur.bytes && Pop(cur).owner == cur.owner
  {
    hide MemOk, Kept, Claimed, Mapped, Unmapped;
    KeptPop(m, cur);
    KeptFacts(m, Pop(cur), root);
  }

  /** Taking a frame and walking leaves what was done before, and the page at hand as it was. */
  lemma AllocatedWalked(m: Mem, cur: Mem, walked: Mem, root: nat, v0: nat, frames: seq<nat>, perm: Perm)
    requires Allocated(m, cur, root, v0, frames, perm) && IsRoot(m, root) && cur.free != [] && Walked(Pop(cur), walked)
    ensures Allocated(m, walked, root, v0, frames, perm)
    ensures Fresh(walked, cur.free[0]) && cur.free[0] in m.free
    ensures Translate(walked, root, v0 + |frames|) == Translate(m, root, v0 + |frames|)
  {
    hide Tree, FramesOk, Kept, Claimed, Mapped, Unmapped, Translate, Pop, Fresh, SameFlat;
    AllocatedPopped(m, cur, root, v0, frames, perm);
    KeptWalk(m, Pop(cur), walked);
    WalkedSame(Pop(cur), walked);
    SameFlatTwice(cur, Pop(cur), walked);
    StillUnmapped(m, cur, walked, root, v0, frames, perm);
    MappedWalk(m, cur, walked, root, v0, frames, perm);
    ClaimedSame(m, cur, walked, root, v0, frames);
    FreshWalk(Pop(cur), walked, cur.free[0]);
  }

  lemma AllocatedMore(m: Mem, walked: Mem, root: nat, v0: nat, frames: seq<nat>, perm: Perm, f: nat,
                      vpn: nat, table: nat, index: nat)
    requires Allocated(m, walked, root, v0, frames, perm) && Fresh(walked, f) && f in m.free
    requires vpn == v0 + |frames| && Translate(m, root, vpn) == None
    requires OnPath(root, vpn, 1) in walked.at && table == walked.at[OnPath(root, vpn, 1)] && index == Index(vpn, 1)
    requires table in walked.tables && index < |walked.tables[table]|
    ensures Allocated(m, Install(walked, table, index, Leaf(perm, f), f, root, vpn), root, v0, frames + [f], perm)
  {
    hide MemOk, Kept, Claimed, Mapped, Unmapped, Translate, Fresh, OnlyChanged, SetEntry;
    InstallKept(m, walked, root, vpn, Leaf(perm, f), f);
    FreshFacts(walked, f);
    var m' := Install(walked, table, index, Leaf(perm, f), f, root, vpn);
    SameFlatSelf(walked);
    MappedOneMore(m, walked, walked, m', root, v0, frames, f, perm);
    ClaimedOneMore(m, walked, walked, m', root, v0, frames, f);
    UnmappedMore(m, root, v0, |frames|);
  }

  lemma SameFlatSelf(m: Mem)
    ensures SameFlat(m, m)
  {
  }

  lemma WritableSame(m: Mem, cur: Mem, root: nat, vpn: nat, userspace: bool)
    requires SameButBytes(m, cur)
    ensures Writable(cur, root, vpn, userspace) <==> Writable(m, root, vpn, userspace)
  {
    hide MemOk, Translate;
  }

  lemma SameButBytesTwice(a: Mem, b: Mem, c: Mem)
    requires SameButBytes(a, b) && SameButBytes(b, c)
    ensures SameButBytes(a, c)
  {
    hide MemOk, Translate;
    SameFlatTwice(a, b, c);
  }

  lemma SamePage(a: nat, n: nat, va: nat)
    requires a <= va < a + n && n <= PAGE_SIZE - a % PAGE_SIZE
    ensures va / PAGE_SIZE == a / PAGE_SIZE
  {
  }

  lemma PartEnds(a: nat, n: nat)
    ensures n == PAGE_SIZE - a % PAGE_SIZE ==> (a + n) % PAGE_SIZE == 0
  {
  }

  /** What vmm_memcpy has done after `i` bytes. */
  ghost predicate Copying(m: Mem, m': Mem, root: nat, dst: nat, src: seq<int>, i: nat, userspace: bool)
    requires i <= |src|
  {
    && SameButBytes(m, m') && Written(m, m', root, dst, src[..i])
    && (i == 0 || i == |src| || (dst + i) % PAGE_SIZE == 0)
    && (forall va :: dst <= va < dst + i ==> Writable(m, root, va / PAGE_SIZE, userspace))
  }

  lemma CopyingNothing(m: Mem, root: nat, dst: nat, src: seq<int>, userspace: bool)
    requires MemOk(m)
    ensures Copying(m, m, root, dst, src, 0, userspace)
  {
    hide MemOk, Translate, Written, SameButBytes;
    SameButBytesSelf(m);
    WrittenNothing(m, root, dst);
    assert src[..0] == [];
  }

  lemma CopyingFacts(m: Mem, m': Mem, root: nat, dst: nat, src: seq<int>, i: nat, userspace: bool)
    requires i <= |src| && Copying(m, m', root, dst, src, i, userspace) && IsRoot(m, root)
    ensures SameButBytes(m, m') && Written(m, m', root, dst, src[..i]) && MemOk(m') && IsRoot(m', root)
    ensures i == 0 || i == |src| || (dst + i) % PAGE_SIZE == 0
    ensures forall va :: dst <= va < dst + i ==> Writable(m, root, va / PAGE_SIZE, userspace)
    ensures var p := (dst + i) / PAGE_SIZE; Writable(m', root, p, userspace) <==> Writable(m, root, p, userspace)
  {
    hide MemOk, Translate, Written, SameButBytes, Writable;
    SameButBytesFacts(m, m', root, (dst + i) / PAGE_SIZE);
    WritableSame(m, m', root, (dst + i) / PAGE_SIZE, userspace);
  }

  lemma CopyingMore(m: Mem, cur: Mem, m': Mem, root: nat, dst: nat, src: seq<int>, i: nat, n: nat, userspace: bool)
    requires i < |src| && 0 < n <= |src| - i && Copying(m, cur, root, dst, src, i, userspace)
    requires n == if PAGE_SIZE - (dst + i) % PAGE_SIZE > |src| - i then |src| - i else PAGE_SIZE - (dst + i) % PAGE_SIZE
    requires SameButBytes(cur, m') && Written(cur, m', root, dst + i, src[i..][..n])
    requires Writable(cur, root, (dst + i) / PAGE_SIZE, userspace)
    ensures Copying(m, m', root, dst, src, i + n, userspace)
  {
    hide MemOk, Translate, Written, SameButBytes, Writable;
    assert src[..i] + src[i..][..n] == src[..i + n];
    WrittenMore(m, cur, m', root, dst, src[..i], src[i..][..n]);
    SameButBytesTwice(m, cur, m');
    WritableSame(m, cur, root, (dst + i) / PAGE_SIZE, userspace);
    PartEnds(dst + i, n);
    forall va | dst <= va < dst + i + n ensures Writable(m, root, va / PAGE_SIZE, userspace) {
      if va >= dst + i {
        SamePage(dst + i, n, va);
      }
    }
  }

  class Manager {
    var m: Mem

    constructor (m: Mem)
      ensures this.m == m
    {
      this.m := m;
    }

    /** kfree: puts a frame at the head of the free list. */
    method Kfree(frame: nat)
      modifies this
      ensures m == Push(old(m), frame) && m.free == [frame] + old(m).free
    {
      m := m.(free := [frame] + m.free, tables := m.tables - {frame}, bytes := m.bytes - {frame});
    }

    /** kalloc_for_page_cache: takes the head of the free list. */
    method Kalloc() returns (frame: Option<nat>)
      modifies this
      ensures old(m).free == [] ==> frame == None && m == old(m)
      ensures old(m).free != [] ==> frame == Some(old(m).free[0]) && m == Pop(old(m))
    {
      if m.free == [] {
        return None;
      }
      frame := Some(m.free[0]);
      m := m.(free := m.free[1..]);
    }

    /** walk: the leaf entry for a virtual address, building inner tables when `alloc` is set. */
    method Walk(root: nat, va: nat, alloc: bool) returns (r: WalkResult)
      requires Tree(m) && FramesOk(m) && IsRoot(m, root)
      modifies this
      ensures Walked(old(m), m) && (!alloc ==> m == old(m))
      ensures r.WalkPanic? <==> !UserPage(va / PAGE_SIZE)
      ensures r.Entry? ==>
                && OnPath(root, va / PAGE_SIZE, 1) in m.at
                && r.table == m.at[OnPath(root, va / PAGE_SIZE, 1)] && r.index == Index(va / PAGE_SIZE, 1)
      ensures r.NoEntry? ==> Translate(m, root, va / PAGE_SIZE) == None && (alloc ==> m.free == [])
    {
      hide Tree, FramesOk, Walked, SameFlat, Fresh, Translate, Grow, Pop, Prefix, TagOk;
      WalkedSelf(m);
      if va < VPN_MIN * PAGE_SIZE || va >= VPN_MAX * PAGE_SIZE {
        return WalkPanic;
      }
      var vpn := va / PAGE_SIZE;
      RootOnPath(m, root, vpn);
      var table, h := root, 4;
      while h > 1
        invariant 1 <= h <= 4
        invariant Walked(old(m), m) && (!alloc ==> m == old(m))
        invariant OnPath(root, vpn, h) in m.at && m.at[OnPath(root, vpn, h)] == table
      {
        WalkedFacts(old(m), m);
        Descend(m, root, vpn, h);
        var i := Index(vpn, h);
        if m.tables[table][i].present {
          table := m.tables[table][i].address;
        } else {
          NothingBelow(m, root, vpn, h - 1);
          if !alloc {
            return NoEntry;
          }
          ghost var before := m;
          var frame := Kalloc();
          if frame == None {
            return NoEntry;
          }
          WalkedPop(old(m), before);
          PopOnlyFree(before);
          WalkedGrow(old(m), m, OnPath(root, vpn, h), i, frame.value);
          GrowIs(m, OnPath(root, vpn, h), i, frame.value);
          m := m.(tables := m.tables[table := m.tables[table][i := Link(frame.value)]][frame.value := ZeroTable()],
                  at := m.at[Child(OnPath(root, vpn, h), i) := frame.value]);
          table := frame.value;
        }
        h := h - 1;
      }
      return Entry(table, Index(vpn, 1));
    }

    /** vmm_walkaddr: the frame behind a user (or supervisor) page, if it is mapped that way. */
    method WalkAddr(root: nat, va: nat, user: bool) returns (frame: Option<nat>)
      requires Tree(m) && FramesOk(m) && IsRoot(m, root) && va >= VPN_MIN * PAGE_SIZE
      modifies this
      ensures m == old(m)
      ensures frame == var e := Translate(m, root, va / PAGE_SIZE);
                       if va < VPN_MAX * PAGE_SIZE && e.Some? && e.value.us == user && e.value.address != 0
                       then Some(e.value.address) else None
    {
      hide Tree, FramesOk, Walked, Translate, Prefix;
      if va >= VPN_MAX * PAGE_SIZE {
        return None;
      }
      var r := Walk(root, va, false);
      if r.NoEntry? {
        return None;
      }
      LeafIsTranslation(m, root, va / PAGE_SIZE);
      var e := m.tables[r.table][r.index];
      if !e.present || e.us != user {
        return None;
      }
      return if e.address == 0 then None else Some(e.address);
    }

    /** vmm_map_pages.  `done` pages have been mapped, also when it fails. */
    method MapPages(root: nat, va: nat, size: nat, pa: nat, perm: Perm) returns (r: Outcome, ghost done: nat)
      requires Tree(m) && FramesOk(m) && IsRoot(m, root)
      modifies this
      ensures SameRest(old(m), m)
      ensures Mapped(old(m), m, root, va / PAGE_SIZE, Consecutive(pa / PAGE_SIZE, done), perm)
      ensures Unmapped(old(m), root, va / PAGE_SIZE, done)
      ensures r.Ok? ==>
                && va % PAGE_SIZE == 0 && size % PAGE_SIZE == 0 && pa % PAGE_SIZE == 0
                && done == size / PAGE_SIZE > 0 && AllUser(va / PAGE_SIZE, done)
      ensures r.Oom? ==> done < size / PAGE_SIZE && m.free == []
      ensures r.Panic? ==>
                || va % PAGE_SIZE != 0 || size % PAGE_SIZE != 0 || pa % PAGE_SIZE != 0 || size == 0
                || (done < size / PAGE_SIZE &&
                    (!UserPage(va / PAGE_SIZE + done) || Translate(old(m), root, va / PAGE_SIZE + done).Some?))
    {
      hide Tree, FramesOk, Walked, SameRest, Mapped, SameFlat, OnlyChanged, Translate, Prefix;
      hide Unmapped, Consecutive, AllUser;
      done := 0;
      SameRestSelf(m);
      MappedNothing(m, root, va / PAGE_SIZE, perm);
      UnmappedNothing(m, root, va / PAGE_SIZE);
      ConsecutiveMore(pa / PAGE_SIZE, 0);
      NoPagesUser(va / PAGE_SIZE);
      if pa % PAGE_SIZE != 0 || va % PAGE_SIZE != 0 || size % PAGE_SIZE != 0 || size == 0 {
        return Panic, 0;
      }
      var pages, i := size / PAGE_SIZE, 0;
      while i < pages
        invariant 0 <= i <= pages && done == i
        invariant SameRest(old(m), m)
        invariant Mapped(old(m), m, root, va / PAGE_SIZE, Consecutive(pa / PAGE_SIZE, i), perm)
        invariant Unmapped(old(m), root, va / PAGE_SIZE, i) && AllUser(va / PAGE_SIZE, i)
      {
        ghost var cur, frames := m, Consecutive(pa / PAGE_SIZE, i);
        SameRestFacts(old(m), m, root);
        var current := va + i * PAGE_SIZE;
        PageOf(va, i);
        var w := Walk(root, current, true);
        ghost var walked, vpn := m, va / PAGE_SIZE + i;
        SameRestWalk(old(m), cur, walked);
        WalkedFacts(cur, walked);
        StillUnmapped(old(m), cur, walked, root, va / PAGE_SIZE, frames, perm);
        MappedWalk(old(m), cur, walked, root, va / PAGE_SIZE, frames, perm);
        if w.WalkPanic? {
          return Panic, i;
        }
        if w.NoEntry? {
          return Oom, i;
        }
        LeafIsTranslation(m, root, vpn);
        var e := m.tables[w.table][w.index];
        if e.present {
          return Panic, i;
        }
        EntryNotHuge(m, root, vpn);
        var leaf := e.(present := true, rw := perm.writable, xd := !perm.executable, us := perm.userspace,
                       address := pa / PAGE_SIZE + i);
        WriteLeaf(m, root, vpn, leaf);
        SameRestLeaf(old(m), m, w.table, w.index, leaf);
        m := SetEntry(m, w.table, w.index, leaf);
        MappedOneMore(old(m), cur, walked, m, root, va / PAGE_SIZE, frames, pa / PAGE_SIZE + i, perm);
        ConsecutiveMore(pa / PAGE_SIZE, i);
        UnmappedMore(old(m), root, va / PAGE_SIZE, i);
        AllUserMore(va / PAGE_SIZE, i);
        i := i + 1;
        done := i;
      }
      return Ok, done;
    }

    /** vmm_allocate.  `frames` are the frames mapped, also when it fails. */
    method Allocate(root: nat, va: nat, size: nat, perm: Perm) returns (r: Outcome, ghost frames: seq<nat>)
      requires MemOk(m) && IsRoot(m, root)
      modifies this
      ensures Kept(old(m), m) && Claimed(old(m), m, root, va / PAGE_SIZE, frames)
      ensures Mapped(old(m), m, root, va / PAGE_SIZE, frames, perm) && NoDup(frames)
      ensures Unmapped(old(m), root, va / PAGE_SIZE, |frames|)
      ensures r.Ok? ==> va % PAGE_SIZE == 0 && |frames| == size / PAGE_SIZE > 0 && size % PAGE_SIZE == 0
      ensures r.Oom? ==> |frames| < size / PAGE_SIZE && m.free == []
      ensures r.Panic? ==>
                || va % PAGE_SIZE != 0 || size % PAGE_SIZE != 0 || size == 0
                || (|frames| < size / PAGE_SIZE &&
                    (!UserPage(va / PAGE_SIZE + |frames|) || Translate(old(m), root, va / PAGE_SIZE + |frames|).Some?))
    {
      hide MemOk, Tree, FramesOk, Walked, Kept, Mapped, Translate, Prefix, Claimed, Fresh, Unmapped, NoDup;
      hide Install, Pop, Allocated;
      frames := [];
      ghost var v0 := va / PAGE_SIZE;
      AllocatedNothing(m, root, v0, perm);
      AllocatedParts(m, m, root, v0, [], perm);
      if va % PAGE_SIZE != 0 || size % PAGE_SIZE != 0 || size == 0 {
        return Panic, [];
      }
      var pages, i := size / PAGE_SIZE, 0;
      while i < pages
        invariant 0 <= i <= pages && |frames| == i
        invariant Allocated(old(m), m, root, v0, frames, perm)
      {
        ghost var cur := m;
        AllocatedParts(old(m), cur, root, v0, frames, perm);
        var frame := Kalloc();
        if frame == None {
          return Oom, frames;
        }
        AllocatedPopped(old(m), cur, root, v0, frames, perm);
        var vpn := va / PAGE_SIZE + i;
        PageOf(va, i);
        var w := Walk(root, va + i * PAGE_SIZE, true);
        ghost var walked := m;
        AllocatedWalked(old(m), cur, walked, root, v0, frames, perm);
        AllocatedParts(old(m), walked, root, v0, frames, perm);
        if w.WalkPanic? {
          return Panic, frames;
        }
        if w.NoEntry? {
          return Oom, frames;
        }
        LeafIsTranslation(m, root, vpn);
        var e := m.tables[w.table][w.index];
        if e.present {
          return Panic, frames;
        }
        EntryNotHuge(m, root, vpn);
        var leaf := e.(present := true, rw := perm.writable, xd := !perm.executable, us := perm.userspace,
                       address := frame.value);
        AllocatedMore(old(m), walked, root, v0, frames, perm, frame.value, vpn, w.table, w.index);
        InstallIs(m, w.table, w.index, leaf, frame.value, root, vpn);
        m := SetEntry(m, w.table, w.index, leaf).(bytes := m.bytes[frame.value := ZeroPage()],
            owner := m.owner[frame.value := (root, vpn)]);
        frames := frames + [frame.value];
        i := i + 1;
      }
      AllocatedParts(old(m), m, root, v0, frames, perm);
      return Ok, frames;
    }

    /** One turn of vmm_memcpy's loop: the bytes up to the end of the page or of the source; none if
        the page cannot be written this way. */
    method CopyPart(root: nat, a: nat, src: seq<int>, userspace: bool) returns (n: nat)
      requires MemOk(m) && IsRoot(m, root) && src != []
      modifies this
      ensures n == 0 <==> !Writable(old(m), root, a / PAGE_SIZE, userspace)
      ensures n == 0 ==> m == old(m)
      ensures n > 0 ==> n == if PAGE_SIZE - a % PAGE_SIZE > |src| then |src| else PAGE_SIZE - a % PAGE_SIZE
      ensures n <= |src| && SameButBytes(old(m), m) && Written(old(m), m, root, a, src[..n])
    {
      hide MemOk, Tree, FramesOk, Walked, Translate, Prefix, SameFlat, Written, StoreBytes, SameButBytes;
      SameButBytesSelf(m);
      WrittenNothing(m, root, a);
      assert src[..0] == [];
      ghost var cur := m;
      ghost var vpn := a / PAGE_SIZE;
      SameButBytesFacts(m, m, root, vpn);
      var off := a % PAGE_SIZE;
      var va0 := a - off;
      if va0 >= VPN_MAX * PAGE_SIZE || va0 < VPN_MIN * PAGE_SIZE {
        return 0;
      }
      var w := Walk(root, va0, false);
      if w.NoEntry? {
        return 0;
      }
      LeafIsTranslation(m, root, vpn);
      var e := m.tables[w.table][w.index];
      if !e.present || e.us != userspace || !e.rw {
        return 0;
      }
      n := if PAGE_SIZE - off > |src| then |src| else PAGE_SIZE - off;
      StoreBytesWritten(m, root, vpn, off, src[..n]);
      m := StoreBytes(m, e.address, off, src[..n]);
      SameButBytesStep(cur, cur, m, e.address, off, src[..n]);
    }

    /** vmm_memcpy.  `written` bytes have been copied when it returns. */
    method Memcpy(root: nat, dst: nat, src: seq<int>, userspace: bool) returns (ok: bool, ghost written: nat)
      requires MemOk(m) && IsRoot(m, root)
      modifies this
      ensures SameButBytes(old(m), m)
      ensures written <= |src| && Written(old(m), m, root, dst, src[..written])
      ensures ok <==> written == |src|
      ensures forall va :: dst <= va < dst + written ==> Writable(old(m), root, va / PAGE_SIZE, userspace)
      ensures !ok ==>
                && (written == 0 || (dst + written) % PAGE_SIZE == 0)
                && !Writable(old(m), root, (dst + written) / PAGE_SIZE, userspace)
    {
      hide MemOk, Translate, Written, SameButBytes, Writable, Copying;
      CopyingNothing(m, root, dst, src, userspace);
      var i := 0;
      while i < |src|
        invariant 0 <= i <= |src| && Copying(old(m), m, root, dst, src, i, userspace)
      {
        ghost var cur := m;
        CopyingFacts(old(m), cur, root, dst, src, i, userspace);
        var n := CopyPart(root, dst + i, src[i..], userspace);
        if n == 0 {
          return false, i;
        }
        CopyingMore(old(m), cur, m, root, dst, src, i, n, userspace);
        i := i + n;
      }
      CopyingFacts(old(m), m, root, dst, src, i, userspace);
      return true, i;
    }
  }

  lemma SameButBytesSelf(m: Mem)
    requires MemOk(m)
    ensures SameButBytes(m, m)
  {
  }

  lemma SameButBytesFacts(m: Mem, cur: Mem, root: nat, vpn: nat)
    requires SameButBytes(m, cur) && IsRoot(m, root)
    ensures MemOk(cur) && Tree(cur) && FramesOk(cur) && IsRoot(cur, root)
    ensures Translate(cur, root, vpn) == Translate(m, root, vpn)
  {
  }

  lemma SameButBytesStep(m: Mem, cur: Mem, m': Mem, f: nat, off: nat, data: seq<int>)
    requires SameButBytes(m, cur) && f in cur.bytes && off + |data| <= |cur.bytes[f]|
    requires m' == StoreBytes(cur, f, off, data) && MemOk(m') && SameFlat(cur, m')
    ensures SameButBytes(m, m')
  {
    SameFlatTwice(m, cur, m');
  }

  lemma InstallIs(m: Mem, table: nat, index: nat, leaf: Pte, f: nat, root: nat, vpn: nat)
    requires table in m.tables && index < |m.tables[table]|
    ensures Install(m, table, index, leaf, f, root, vpn) ==
            SetEntry(m, table, index, leaf).(bytes := m.bytes[f := ZeroPage()], owner := m.owner[f := (root, vpn)])
  {
  }

  lemma ClaimedNothing(m: Mem, root: nat, v0: nat)
    ensures Claimed(m, m, root, v0, [])
  {
  }

  lemma SameFlatTwice(a: Mem, b: Mem, c: Mem)
    requires SameFlat(a, b) && SameFlat(b, c)
    ensures SameFlat(a, c)
  {
  }

  lemma WalkedSame(m: Mem, n: Mem)
    requires Walked(m, n)
    ensures Tree(n) && FramesOk(n) && n.bytes == m.bytes && n.owner == m.owner
  {
  }

  lemma EntryNotHuge(m: Mem, root: nat, vpn: nat)
    requires Tree(m) && OnPath(root, vpn, 1) in m.at && m.at[OnPath(root, vpn, 1)] in m.tables
    requires |m.tables[m.at[OnPath(root, vpn, 1)]]| == ENTRIES
    ensures !m.tables[m.at[OnPath(root, vpn, 1)]][Index(vpn, 1)].huge
  {
    EntryAt(m, OnPath(root, vpn, 1), Index(vpn, 1));
  }

  lemma MappedWalk(m: Mem, cur: Mem, walked: Mem, root: nat, v0: nat, frames: seq<nat>, perm: Perm)
    requires Mapped(m, cur, root, v0, frames, perm) && SameFlat(cur, walked)
    ensures Mapped(m, walked, root, v0, frames, perm)
  {
  }

  lemma WalkedFacts(m: Mem, n: Mem)
    requires Walked(m, n)
    ensures Tree(n) && FramesOk(n) && SameFlat(m, n)
  {
  }

  lemma PopOnlyFree(m: Mem)
    requires m.free != []
    ensures Pop(m) == m.(free := m.free[1..])
  {
  }

  lemma GrowIs(m: Mem, t: Tag, i: nat, g: nat)
    requires t in m.at && m.at[t] in m.tables && i < |m.tables[m.at[t]]| && t.height >= 1
    ensures Grow(m, t, i, g) == m.(tables := m.tables[m.at[t] := m.tables[m.at[t]][i := Link(g)]][g := ZeroTable()],
                                   at := m.at[Child(t, i) := g])
  {
  }
}
