/** The inode table and everyone who holds inodes: open files, working directories, and a system
    call between getting an inode and storing it.  CrowFS is abstracted to the answers it gives. */
module Inodes {
  import opened Basics

  const MAX_INODES: int := 64
  const MAX_OPEN_FILES: int := 16

  datatype Kind = Empty | File | Directory

  datatype Inode = Inode(kind: Kind, dnode: nat, parent: nat, size: nat, refs: nat)

  const EMPTY: Inode := Inode(Empty, 0, 0, 0, 0)

  /** What CrowFS says about a path: not there, or which dnode it is. */
  datatype Answer = NotFound | Found(dnode: nat, parent: nat, dir: bool, size: nat)

  /** The table, the open files and working directories of the live processes, and the inode a
      running system call has got but not stored yet. */
  datatype Fs = Fs(
    inodes: seq<Inode>,
    open: map<(nat, nat), nat>,   // (process, fd) -> inode, for FD_INODE
    devices: set<(nat, nat)>,     // (process, fd) that are FD_DEVICE
    cwd: map<nat, nat>,           // process -> inode
    pending: Option<nat>)

  // ----- counting holders

  function Keys<K>(m: map<K, nat>, i: nat): set<K> {
    set k | k in m && m[k] == i
  }

  function Count<K>(m: map<K, nat>, i: nat): nat {
    |Keys(m, i)|
  }

  lemma CountInsert<K>(m: map<K, nat>, k: K, v: nat, i: nat)
    requires k !in m
    ensures Count(m[k := v], i) == Count(m, i) + if v == i then 1 else 0
  {
    if v == i {
      assert Keys(m[k := v], i) == Keys(m, i) + {k};
    } else {
      assert Keys(m[k := v], i) == Keys(m, i);
    }
  }

  lemma CountRemove<K>(m: map<K, nat>, k: K, i: nat)
    requires k in m
    ensures Count(m - {k}, i) == Count(m, i) - if m[k] == i then 1 else 0
  {
    if m[k] == i {
      assert Keys(m, i) == Keys(m - {k}, i) + {k};
    } else {
      assert Keys(m - {k}, i) == Keys(m, i);
    }
  }

  lemma CountPositive<K>(m: map<K, nat>, k: K)
    requires k in m
    ensures Count(m, m[k]) >= 1
  {
    assert k in Keys(m, m[k]);
  }

  function Held(s: Fs, i: nat): nat {
    Count(s.open, i) + Count(s.cwd, i) + if s.pending == Some(i) then 1 else 0
  }

  // ----- the invariant

  /** All indices are into their tables. */
  ghost predicate WellFormed(s: Fs) {
    && |s.inodes| == MAX_INODES
    && (forall k :: k in s.open ==> s.open[k] < MAX_INODES)
    && (forall p :: p in s.cwd ==> s.cwd[p] < MAX_INODES)
    && (s.pending.Some? ==> s.pending.value < MAX_INODES)
  }

  /** Descriptors are numbered within a process's table. */
  ghost predicate FdsOk(open: map<(nat, nat), nat>, devices: set<(nat, nat)>) {
    (forall k :: k in open ==> k.1 < MAX_OPEN_FILES) && (forall k :: k in devices ==> k.1 < MAX_OPEN_FILES)
  }

  lemma FdAdded(open: map<(nat, nat), nat>, devices: set<(nat, nat)>, p: nat, fd: nat, v: nat)
    requires FdsOk(open, devices) && fd < MAX_OPEN_FILES
    ensures FdsOk(open[(p, fd) := v], devices)
  {
  }

  lemma StandardFdsAdded(open: map<(nat, nat), nat>, devices: set<(nat, nat)>, p: nat)
    requires FdsOk(open, devices)
    ensures FdsOk(open, devices + {(p, 0), (p, 1), (p, 2)})
  {
  }

  /** Every holder is counted, and a slot is empty exactly when its count is zero, and then cleared. */
  ghost predicate CountOk(s: Fs, i: nat)
    requires WellFormed(s) && i < MAX_INODES
  {
    && Held(s, i) <= s.inodes[i].refs
    && (s.inodes[i].kind == Empty <==> s.inodes[i].refs == 0)
    && (s.inodes[i].kind == Empty ==> s.inodes[i] == EMPTY)
  }

  ghost predicate Distinct(inodes: seq<Inode>) {
    forall i, j :: 0 <= i < j < |inodes| && inodes[i].kind != Empty && inodes[j].kind != Empty ==>
        inodes[i].dnode != inodes[j].dnode
  }

  ghost predicate FsOk(s: Fs) {
    && WellFormed(s) && Distinct(s.inodes)
    && forall i :: 0 <= i < MAX_INODES ==> CountOk(s, i)
  }

  /** The books are right and no slot counts more references than were ever taken. */
  ghost predicate Counted(s: Fs, acquired: nat) {
    FsOk(s) && forall i :: 0 <= i < MAX_INODES ==> s.inodes[i].refs <= acquired
  }

  /** Whoever holds an inode before and after still has the same file. */
  ghost predicate HoldersUndisturbed(s: Fs, s': Fs)
    requires WellFormed(s) && WellFormed(s')
  {
    && (forall k :: k in s.open && k in s'.open && s.open[k] == s'.open[k] ==>
          s'.inodes[s.open[k]].kind != Empty && s'.inodes[s.open[k]].dnode == s.inodes[s.open[k]].dnode)
    && (forall p :: p in s.cwd && p in s'.cwd && s.cwd[p] == s'.cwd[p] ==>
          s'.inodes[s.cwd[p]].kind != Empty && s'.inodes[s.cwd[p]].dnode == s.inodes[s.cwd[p]].dnode)
  }

  /** What slot i counts beyond the references somebody holds. */
  ghost function Surplus(s: Fs, i: nat): int
    requires WellFormed(s) && i < MAX_INODES
  {
    s.inodes[i].refs - Held(s, i)
  }

  /** No reference got lost and none was given back twice. */
  ghost predicate Balanced(s: Fs, s': Fs)
    requires WellFormed(s) && WellFormed(s')
  {
    forall i: nat :: i < MAX_INODES ==> Surplus(s', i) == Surplus(s, i)
  }

  /** While the counts match the holders, a slot is empty exactly when nobody holds it. */
  lemma EmptyIffUnheld(s: Fs, s': Fs, i: nat)
    requires FsOk(s) && FsOk(s') && i < MAX_INODES && Balanced(s, s') && Surplus(s, i) == 0
    ensures s'.inodes[i].refs == Held(s', i) && (s'.inodes[i].kind == Empty <==> Held(s', i) == 0)
  {
    assert CountOk(s', i);
  }

  // ----- fs_dup, fs_close

  /** One more reference, in 32 bits. */
  function Acquire(inodes: seq<Inode>, i: nat): seq<Inode>
    requires i < |inodes|
  {
    inodes[i := inodes[i].(refs := (inodes[i].refs + 1) % TWO32)]
  }

  /** One reference less; the last one empties the slot. */
  function Release(inodes: seq<Inode>, i: nat): seq<Inode>
    requires i < |inodes|
  {
    var left := (inodes[i].refs + TWO32 - 1) % TWO32;
    inodes[i := if left == 0 then EMPTY else inodes[i].(refs := left)]
  }

  /** Taking a reference keeps the books exactly as long as the counter does not wrap. */
  lemma AcquireKeepsIff(s: Fs, i: nat)
    requires FsOk(s) && s.pending == None && i < MAX_INODES && s.inodes[i].kind != Empty && s.inodes[i].refs < TWO32
    ensures FsOk(s.(inodes := Acquire(s.inodes, i), pending := Some(i))) <==> s.inodes[i].refs + 1 < TWO32
    ensures s.inodes[i].refs + 1 < TWO32 ==>
        Balanced(s, s.(inodes := Acquire(s.inodes, i), pending := Some(i)))
  {
    var s' := s.(inodes := Acquire(s.inodes, i), pending := Some(i));
    assert CountOk(s, i);
    assert Held(s', i) == Held(s, i) + 1;
    if s.inodes[i].refs + 1 < TWO32 {
      forall j | 0 <= j < MAX_INODES ensures CountOk(s', j) {
        assert CountOk(s, j);
      }
    } else {
      assert !CountOk(s', i);
    }
  }

  /** Holders without the one being released, counted against the table after the release. */
  lemma ReleaseKeeps(s: Fs, s': Fs, i: nat, acquired: nat)
    requires Counted(s, acquired) && acquired < TWO32 && WellFormed(s') && i < MAX_INODES
    requires s'.inodes == Release(s.inodes, i)
    requires Held(s, i) >= 1 && Held(s', i) == Held(s, i) - 1
    requires forall j: nat :: j < MAX_INODES && j != i ==> Held(s', j) == Held(s, j)
    ensures Counted(s', acquired) && Balanced(s, s')
  {
    assert CountOk(s, i);
    forall j | 0 <= j < MAX_INODES ensures CountOk(s', j) && Surplus(s', j) == Surplus(s, j) {
      assert CountOk(s, j);
    }
  }

  // ----- fs_open

  predicate Matches(n: Inode, dnode: nat) {
    n.kind != Empty && n.dnode == dnode
  }

  /** The slot fs_open fills for a file that is not in the table. */
  function Fresh(a: Answer): Inode
    requires a.Found?
  {
    Inode(if a.dir then Directory else File, a.dnode, a.parent, a.size, 1)
  }

  /** The slot says about the file what CrowFS answered. */
  predicate FiledAs(n: Inode, a: Answer) {
    && a.Found? && n.kind != Empty && (n.kind == Directory <==> a.dir)
    && n.dnode == a.dnode && n.parent == a.parent && n.size == a.size
  }

  lemma FillKeeps(s: Fs, i: nat, a: Answer)
    requires FsOk(s) && s.pending == None && i < MAX_INODES && s.inodes[i].kind == Empty && a.Found?
    requires forall j :: 0 <= j < MAX_INODES ==> !Matches(s.inodes[j], a.dnode)
    ensures FsOk(s.(inodes := s.inodes[i := Fresh(a)], pending := Some(i)))
    ensures Balanced(s, s.(inodes := s.inodes[i := Fresh(a)], pending := Some(i)))
  {
    var s' := s.(inodes := s.inodes[i := Fresh(a)], pending := Some(i));
    forall j | 0 <= j < MAX_INODES ensures CountOk(s', j) && Surplus(s', j) == Surplus(s, j) {
      assert CountOk(s, j);
    }
    forall j, k | 0 <= j < k < MAX_INODES && s'.inodes[j].kind != Empty && s'.inodes[k].kind != Empty
      ensures s'.inodes[j].dnode != s'.inodes[k].dnode
    {
      assert !Matches(s.inodes[j], a.dnode) && !Matches(s.inodes[k], a.dnode);
    }
  }

  // ----- holders

  lemma HolderCounted(s: Fs, i: nat)
    requires FsOk(s) && i < MAX_INODES && Held(s, i) >= 1
    ensures s.inodes[i].kind != Empty && s.inodes[i].refs >= 1
  {
    assert CountOk(s, i);
  }

  lemma HoldersLive(s: Fs)
    requires FsOk(s)
    ensures forall k :: k in s.open ==> s.inodes[s.open[k]].kind != Empty
    ensures forall p :: p in s.cwd ==> s.inodes[s.cwd[p]].kind != Empty
    ensures s.pending.Some? ==> s.inodes[s.pending.value].kind != Empty
  {
    forall k | k in s.open ensures s.inodes[s.open[k]].kind != Empty {
      CountPositive(s.open, k);
      HolderCounted(s, s.open[k]);
    }
    forall p | p in s.cwd ensures s.inodes[s.cwd[p]].kind != Empty {
      CountPositive(s.cwd, p);
      HolderCounted(s, s.cwd[p]);
    }
    if s.pending.Some? {
      HolderCounted(s, s.pending.value);
    }
  }

  /** If the books are right before and after, and no slot in use is given to another file, then no
      holder is disturbed. */
  lemma Undisturbed(s: Fs, s': Fs)
    requires FsOk(s) && FsOk(s')
    requires forall i :: 0 <= i < MAX_INODES && s.inodes[i].kind != Empty && s'.inodes[i].kind != Empty ==>
        s'.inodes[i].dnode == s.inodes[i].dnode
    ensures HoldersUndisturbed(s, s')
  {
    HoldersLive(s);
    HoldersLive(s');
  }

  lemma NothingDone(s: Fs, acquired: nat)
    requires Counted(s, acquired)
    ensures HoldersUndisturbed(s, s) && Balanced(s, s)
  {
    Undisturbed(s, s);
  }

  lemma UndisturbedTwice(a: Fs, b: Fs, c: Fs)
    requires WellFormed(a) && WellFormed(b) && WellFormed(c)
    requires HoldersUndisturbed(a, b) && HoldersUndisturbed(b, c)
    requires forall k :: k in a.open && k in c.open && a.open[k] == c.open[k] ==> k in b.open && b.open[k] == a.open[k]
    requires forall p :: p in a.cwd && p in c.cwd && a.cwd[p] == c.cwd[p] ==> p in b.cwd && b.cwd[p] == a.cwd[p]
    ensures HoldersUndisturbed(a, c)
    ensures Balanced(a, b) && Balanced(b, c) ==> Balanced(a, c)
  {
  }

  /** A descriptor takes over the pending reference. */
  function StoreFd(s: Fs, k: (nat, nat)): Fs
    requires s.pending.Some?
  {
    s.(open := s.open[k := s.pending.value], pending := None)
  }

  lemma StoreFdKeeps(s: Fs, k: (nat, nat), acquired: nat)
    requires Counted(s, acquired) && s.pending.Some? && k !in s.open
    ensures Counted(StoreFd(s, k), acquired) && HoldersUndisturbed(s, StoreFd(s, k))
    ensures Balanced(s, StoreFd(s, k))
  {
    var s' := StoreFd(s, k);
    forall i | 0 <= i < MAX_INODES ensures CountOk(s', i) && Surplus(s', i) == Surplus(s, i) {
      assert CountOk(s, i);
      CountInsert(s.open, k, s.pending.value, i);
    }
    Undisturbed(s, s');
  }

  function StoreCwd(s: Fs, p: nat): Fs
    requires s.pending.Some?
  {
    s.(cwd := s.cwd[p := s.pending.value], pending := None)
  }

  lemma StoreCwdKeeps(s: Fs, p: nat, acquired: nat)
    requires Counted(s, acquired) && s.pending.Some? && p !in s.cwd
    ensures Counted(StoreCwd(s, p), acquired) && HoldersUndisturbed(s, StoreCwd(s, p))
    ensures Balanced(s, StoreCwd(s, p))
  {
    var s' := StoreCwd(s, p);
    forall i | 0 <= i < MAX_INODES ensures CountOk(s', i) && Surplus(s', i) == Surplus(s, i) {
      assert CountOk(s, i);
      CountInsert(s.cwd, p, s.pending.value, i);
    }
    Undisturbed(s, s');
  }

  /** Closing a descriptor. */
  function CloseFd(s: Fs, k: (nat, nat)): Fs
    requires WellFormed(s) && k in s.open
  {
    s.(inodes := Release(s.inodes, s.open[k]), open := s.open - {k})
  }

  lemma CloseFdKeeps(s: Fs, k: (nat, nat), acquired: nat)
    requires Counted(s, acquired) && acquired < TWO32 && k in s.open
    ensures Counted(CloseFd(s, k), acquired) && HoldersUndisturbed(s, CloseFd(s, k))
    ensures Balanced(s, CloseFd(s, k))
  {
    var s' := CloseFd(s, k);
    CountPositive(s.open, k);
    forall i: nat | i < MAX_INODES ensures Held(s', i) == Held(s, i) - if s.open[k] == i then 1 else 0 {
      CountRemove(s.open, k, i);
    }
    ReleaseKeeps(s, s', s.open[k], acquired);
    Undisturbed(s, s');
  }

  /** Leaving one working directory for the pending one. */
  function ChangeCwd(s: Fs, p: nat): Fs
    requires WellFormed(s) && p in s.cwd && s.pending.Some?
  {
    s.(inodes := Release(s.inodes, s.cwd[p]), cwd := s.cwd[p := s.pending.value], pending := None)
  }

  lemma ChangeCwdKeeps(s: Fs, p: nat, acquired: nat)
    requires Counted(s, acquired) && acquired < TWO32 && p in s.cwd && s.pending.Some?
    ensures Matches(ChangeCwd(s, p).inodes[s.pending.value], s.inodes[s.pending.value].dnode)
    ensures Counted(ChangeCwd(s, p), acquired) && HoldersUndisturbed(s, ChangeCwd(s, p))
    ensures Balanced(s, ChangeCwd(s, p))
  {
    var s' := ChangeCwd(s, p);
    var without := s.cwd - {p};
    CountPositive(s.cwd, p);
    assert s'.cwd == without[p := s.pending.value];
    forall i: nat | i < MAX_INODES ensures Held(s', i) == Held(s, i) - if s.cwd[p] == i then 1 else 0 {
      CountRemove(s.cwd, p, i);
      CountInsert(without, p, s.pending.value, i);
    }
    ReleaseKeeps(s, s', s.cwd[p], acquired);
    HoldersLive(s);
    HoldersLive(s');
    Undisturbed(s, s');
  }

  /** Closing the pending inode. */
  function DropPending(s: Fs): Fs
    requires WellFormed(s) && s.pending.Some?
  {
    s.(inodes := Release(s.inodes, s.pending.value), pending := None)
  }

  lemma DropPendingKeeps(s: Fs, acquired: nat)
    requires Counted(s, acquired) && acquired < TWO32 && s.pending.Some?
    ensures Counted(DropPending(s), acquired) && HoldersUndisturbed(s, DropPending(s))
    ensures Balanced(s, DropPending(s))
  {
    var s' := DropPending(s);
    ReleaseKeeps(s, s', s.pending.value, acquired);
    Undisturbed(s, s');
  }

  /** One reference is left that nobody holds, the one to p's working directory. */
  ghost predicate OwesCwd(s: Fs, s': Fs, p: nat)
    requires WellFormed(s) && WellFormed(s')
  {
    forall i: nat :: i < MAX_INODES ==>
        Surplus(s', i) == Surplus(s, i) + if p in s.cwd && s.cwd[p] == i then 1 else 0
  }

  lemma OwesAfter(a: Fs, b: Fs, c: Fs, p: nat)
    requires WellFormed(a) && WellFormed(b) && WellFormed(c)
    requires a.cwd == b.cwd && Balanced(a, b) && OwesCwd(b, c, p)
    ensures OwesCwd(a, c, p)
  {
  }

  /** A dead process no longer counts as holding its working directory; its reference stays. */
  lemma ForgetCwdKeeps(s: Fs, p: nat, acquired: nat)
    requires Counted(s, acquired)
    ensures Counted(s.(cwd := s.cwd - {p}), acquired) && HoldersUndisturbed(s, s.(cwd := s.cwd - {p}))
    ensures OwesCwd(s, s.(cwd := s.cwd - {p}), p)
  {
    var s' := s.(cwd := s.cwd - {p});
    forall i | 0 <= i < MAX_INODES
      ensures CountOk(s', i) && Surplus(s', i) == Surplus(s, i) + if p in s.cwd && s.cwd[p] == i then 1 else 0
    {
      assert CountOk(s, i);
      if p in s.cwd {
        CountRemove(s.cwd, p, i);
      } else {
        assert s'.cwd == s.cwd;
      }
    }
    Undisturbed(s, s');
  }

  /** What fs_open did: the slot that already has the file, counted once more; else the last empty
      slot, filled in; else nothing. */
  ghost predicate Opened(s: Fs, a: Answer, s': Fs, r: Option<nat>)
    requires WellFormed(s)
  {
    match r
    case None =>
      && s' == s
      && (a.Found? ==> forall j :: 0 <= j < MAX_INODES ==> s.inodes[j].kind != Empty && s.inodes[j].dnode != a.dnode)
    case Some(i) =>
      && i < MAX_INODES && a.Found?
      && if Matches(s.inodes[i], a.dnode) then
           s' == s.(inodes := Acquire(s.inodes, i), pending := Some(i))
         else
           && s.inodes[i].kind == Empty
           && (forall j :: 0 <= j < MAX_INODES ==> !Matches(s.inodes[j], a.dnode))
           && (forall j :: i < j < MAX_INODES ==> s.inodes[j].kind != Empty)
           && s' == s.(inodes := s.inodes[i := Fresh(a)], pending := Some(i))
  }

  lemma OpenedFacts(s: Fs, a: Answer, s': Fs, r: Option<nat>)
    requires WellFormed(s) && s.pending == None && Opened(s, a, s', r)
    ensures s' == s.(inodes := s'.inodes, pending := r)
    ensures r.Some? ==> a.Found? && r.value < |s'.inodes| && Matches(s'.inodes[r.value], a.dnode)
    ensures r == None ==> s' == s
    ensures r == None ==> a.NotFound? || forall j :: 0 <= j < MAX_INODES ==>
        s.inodes[j].kind != Empty && s.inodes[j].dnode != a.dnode
  {
  }

  /** A successful fs_open keeps the books, gives the caller the file it asked for, and takes no
      inode from anyone. */
  lemma OpenedKeeps(s: Fs, a: Answer, s': Fs, i: nat, acquired: nat)
    requires Counted(s, acquired) && s.pending == None && acquired + 1 < TWO32
    requires Opened(s, a, s', Some(i))
    ensures Counted(s', acquired + 1) && HoldersUndisturbed(s, s') && Matches(s'.inodes[i], a.dnode)
    ensures Balanced(s, s')
    ensures s.inodes[i].kind == Empty ==> FiledAs(s'.inodes[i], a) && s'.inodes[i].refs == 1
    ensures s.inodes[i].kind != Empty ==> s'.inodes[i] == s.inodes[i].(refs := s.inodes[i].refs + 1)
  {
    if Matches(s.inodes[i], a.dnode) {
      AcquireKeepsIff(s, i);
    } else {
      FillKeeps(s, i, a);
    }
    Undisturbed(s, s');
  }

  /** Opening and closing again leaves the table as it was. */
  lemma Undone(s: Fs, a: Answer, s': Fs, i: nat, acquired: nat)
    requires Counted(s, acquired) && s.pending == None && acquired + 1 < TWO32
    requires Opened(s, a, s', Some(i))
    ensures Release(s'.inodes, i) == s.inodes
  {
    assert CountOk(s, i);
  }

  lemma DevicesKeep(s: Fs, s': Fs, acquired: nat)
    requires Counted(s, acquired) && s' == s.(devices := s'.devices)
    ensures Counted(s', acquired) && HoldersUndisturbed(s, s') && Balanced(s, s')
  {
    forall i | 0 <= i < MAX_INODES ensures CountOk(s', i) && Surplus(s', i) == Surplus(s, i) {
      assert CountOk(s, i);
    }
    Undisturbed(s, s');
  }

  lemma CountedLive(s: Fs, acquired: nat)
    requires Counted(s, acquired)
    ensures WellFormed(s) && forall p :: p in s.cwd ==> s.inodes[s.cwd[p]].kind != Empty
  {
    HoldersLive(s);
  }

  /** Nobody in slot p. */
  ghost predicate Gone(s: Fs, p: nat) {
    p !in s.cwd && forall k :: k in s.open ==> k.0 != p
  }

  datatype Launched = Started | Failed | Panicked

  class Files {
    var s: Fs
    ghost var acquired: nat   // references ever taken

    /** The books are right as long as fewer than 2^32 references were ever taken, which is what it
        takes for no 32-bit counter to have wrapped. */
    ghost predicate Valid()
      reads this
    {
      WellFormed(s) && FdsOk(s.open, s.devices) && (acquired < TWO32 ==> Counted(s, acquired))
    }

    ghost predicate Undamaged(was: Fs)
      reads this
      requires WellFormed(was) && WellFormed(s)
    {
      acquired < TWO32 ==> HoldersUndisturbed(was, s)
    }

    /** Every reference taken since is held, and every reference given up was held. */
    ghost predicate Accounted(was: Fs)
      reads this
      requires WellFormed(was) && WellFormed(s)
    {
      acquired < TWO32 ==> Balanced(was, s)
    }

    constructor ()
      ensures Valid() && acquired == 0 && s == Fs(seq(MAX_INODES, i => EMPTY), map[], {}, map[], None)
    {
      s := Fs(seq(MAX_INODES, i => EMPTY), map[], {}, map[], None);
      acquired := 0;
    }

    method FsOpen(a: Answer) returns (r: Option<nat>)
      requires Valid() && s.pending == None
      modifies this
      ensures Valid() && Opened(old(s), a, s, r) && Undamaged(old(s)) && Accounted(old(s))
      ensures acquired == old(acquired) + if r.Some? then 1 else 0
      ensures r.Some? && old(s).inodes[r.value].kind == Empty ==> FiledAs(s.inodes[r.value], a)
    {
      hide FsOk, Counted, HoldersUndisturbed, Balanced, FdsOk;
      if a.NotFound? {
        if acquired < TWO32 { NothingDone(s, acquired); }
        return None;
      }
      var free := None;
      r := None;
      var i := 0;
      while i < MAX_INODES
        invariant 0 <= i <= MAX_INODES && r == None
        invariant s == old(s) && acquired == old(acquired)
        invariant forall j :: 0 <= j < i ==> !Matches(s.inodes[j], a.dnode)
        invariant free == None ==> forall j :: 0 <= j < i ==> s.inodes[j].kind != Empty
        invariant free.Some? ==> 0 <= free.value < i && s.inodes[free.value].kind == Empty
        invariant free.Some? ==> forall j :: free.value < j < i ==> s.inodes[j].kind != Empty
      {
        if s.inodes[i].kind == Empty {
          free := Some(i);
        } else if s.inodes[i].dnode == a.dnode {
          r := Some(i);
          s := s.(inodes := Acquire(s.inodes, i), pending := r);
          break;
        }
        i := i + 1;
      }
      if r == None && free.Some? {
        r := free;
        s := s.(inodes := s.inodes[free.value := Fresh(a)], pending := r);
      }
      assert Opened(old(s), a, s, r);
      if r.Some? {
        acquired := acquired + 1;
        if acquired < TWO32 { OpenedKeeps(old(s), a, s, r.value, old(acquired)); }
      } else if acquired < TWO32 {
        NothingDone(s, acquired);
      }
    }

    method FsDup(i: nat)
      requires Valid() && s.pending == None && i < MAX_INODES && (acquired < TWO32 ==> s.inodes[i].kind != Empty)
      modifies this
      ensures Valid() && Undamaged(old(s)) && Accounted(old(s)) && acquired == old(acquired) + 1
      ensures s == old(s).(inodes := Acquire(old(s).inodes, i), pending := Some(i))
    {
      s := s.(inodes := Acquire(s.inodes, i), pending := Some(i));
      acquired := acquired + 1;
      if acquired < TWO32 {
        AcquireKeepsIff(old(s), i);
        Undisturbed(old(s), s);
      }
    }

    /** Gives up one reference; the caller drops its own pointer. */
    method FsClose(i: nat)
      requires i < |s.inodes|
      modifies this
      ensures s == old(s).(inodes := Release(old(s).inodes, i)) && acquired == old(acquired)
    {
      var left := (s.inodes[i].refs + TWO32 - 1) % TWO32;
      var inode := s.inodes[i].(refs := left);
      if left == 0 {
        inode := inode.(kind := Empty, dnode := 0, parent := 0, size := 0);
      }
      s := s.(inodes := s.inodes[i := inode]);
    }

    /** The pending reference is given up. */
    method ClosePending()
      requires Valid() && s.pending.Some?
      modifies this
      ensures Valid() && Undamaged(old(s)) && Accounted(old(s)) && acquired == old(acquired) && s == DropPending(old(s))
    {
      hide FsOk, Counted, HoldersUndisturbed, Balanced, FdsOk;
      FsClose(s.pending.value);
      s := s.(pending := None);
      if acquired < TWO32 {
        DropPendingKeeps(old(s), acquired);
      }
    }

    method AllocateFd(p: nat) returns (fd: int)
      ensures fd == -1 <==> forall i :: 0 <= i < MAX_OPEN_FILES ==> (p, i) in s.open || (p, i) in s.devices
      ensures fd != -1 ==> 0 <= fd < MAX_OPEN_FILES && (p, fd) !in s.open && (p, fd) !in s.devices
      ensures forall i :: 0 <= i < fd ==> (p, i) in s.open || (p, i) in s.devices
    {
      fd := -1;
      var i := 0;
      while i < MAX_OPEN_FILES
        invariant 0 <= i <= MAX_OPEN_FILES && fd == -1
        invariant forall j :: 0 <= j < i ==> (p, j) in s.open || (p, j) in s.devices
      {
        if (p, i) !in s.open && (p, i) !in s.devices {
          fd := i;
          break;
        }
        i := i + 1;
      }
    }

    /** The caller gets a descriptor that was free, on the file it named, and everybody else keeps
        theirs; a failed open leaves no reference behind. */
    method FileOpen(p: nat, a: Answer) returns (fd: int)
      requires Valid() && s.pending == None && p in s.cwd
      modifies this
      ensures Valid() && s.pending == None && Undamaged(old(s)) && Accounted(old(s))
      ensures s.devices == old(s.devices) && s.cwd == old(s.cwd)
      ensures fd == -1 ==> s == old(s) && acquired == old(acquired)
      ensures fd != -1 ==>
        && acquired == old(acquired) + 1
        && 0 <= fd < MAX_OPEN_FILES && (p, fd) !in old(s.open) && (p, fd) !in s.devices
        && (p, fd) in s.open && s.open == old(s.open)[(p, fd) := s.open[(p, fd)]]
        && a.Found? && Matches(s.inodes[s.open[(p, fd)]], a.dnode)
      ensures fd == -1 ==>
        || a.NotFound?
        || (forall i :: 0 <= i < MAX_OPEN_FILES ==> (p, i) in s.open || (p, i) in s.devices)
        || (forall j :: 0 <= j < MAX_INODES ==> s.inodes[j].kind != Empty && s.inodes[j].dnode != a.dnode)
    {
      hide FsOk, Counted, HoldersUndisturbed, Balanced, FdsOk, Opened, Matches;
      fd := AllocateFd(p);
      if fd == -1 {
        if acquired < TWO32 { NothingDone(s, acquired); }
        return;
      }
      var inode := FsOpen(a);
      OpenedFacts(old(s), a, s, inode);
      if inode == None {
        return -1;
      }
      ghost var got := s;
      s := s.(open := s.open[(p, fd) := inode.value], pending := None);
      FdAdded(got.open, s.devices, p, fd, inode.value);
      if acquired < TWO32 {
        StoreFdKeeps(got, (p, fd), acquired);
        UndisturbedTwice(old(s), got, s);
      }
    }

    /** Closing a file drops that descriptor and nothing else; closing a device does nothing. */
    method SysClose(p: nat, fd: int) returns (r: int)
      requires Valid() && s.pending == None && fd != MAX_OPEN_FILES
      modifies this
      ensures Valid() && Undamaged(old(s)) && Accounted(old(s)) && acquired == old(acquired)
      ensures fd >= 0 && (p, fd) in old(s.open) ==> r == 0 && s == CloseFd(old(s), (p, fd))
      ensures !(fd >= 0 && (p, fd) in old(s.open)) ==>
          s == old(s) && r == if fd >= 0 && (p, fd) in s.devices then 0 else -1
    {
      hide FsOk, Counted, HoldersUndisturbed, Balanced;
      if 0 <= fd < MAX_OPEN_FILES && (p, fd) in s.open {
        FsClose(s.open[(p, fd)]);
        s := s.(open := s.open - {(p, fd)});
        if acquired < TWO32 {
          CloseFdKeeps(old(s), (p, fd), acquired);
        }
        return 0;
      }
      if acquired < TWO32 { NothingDone(s, acquired); }
      if 0 <= fd < MAX_OPEN_FILES && (p, fd) in s.devices {
        return 0;
      }
      return -1;
    }

    /** The process moves to the named directory; on failure it stays where it was. */
    method SysChdir(p: nat, a: Answer) returns (r: int)
      requires Valid() && s.pending == None && p in s.cwd
      modifies this
      ensures Valid() && s.pending == None && Undamaged(old(s)) && Accounted(old(s))
      ensures s.open == old(s.open) && s.devices == old(s.devices)
      ensures r == -1 ==> s == old(s) && acquired == old(acquired)
      ensures r != -1 ==> r == 0 && acquired == old(acquired) + 1 && p in s.cwd && s.cwd == old(s.cwd)[p := s.cwd[p]]
      ensures r == 0 && acquired < TWO32 ==> a.Found? && Matches(s.inodes[s.cwd[p]], a.dnode)
      ensures r == -1 ==> a.NotFound? || forall j :: 0 <= j < MAX_INODES ==>
          s.inodes[j].kind != Empty && s.inodes[j].dnode != a.dnode
    {
      hide FsOk, Counted, HoldersUndisturbed, Balanced, FdsOk, Opened, Matches;
      var inode := FsOpen(a);
      OpenedFacts(old(s), a, s, inode);
      if inode == None {
        return -1;
      }
      ghost var got := s;
      FsClose(s.cwd[p]);
      s := s.(cwd := s.cwd[p := inode.value], pending := None);
      if acquired < TWO32 {
        OpenedKeeps(old(s), a, got, inode.value, old(acquired));
        ChangeCwdKeeps(got, p, acquired);
        UndisturbedTwice(old(s), got, s);
      }
      return 0;
    }

    /** The files of an exiting process are closed.  Its working directory's reference stays taken. */
    method ProcExit(p: nat)
      requires Valid() && s.pending == None
      modifies this
      ensures Valid() && s.pending == None && Undamaged(old(s)) && acquired == old(acquired)
      ensures acquired < TWO32 ==> OwesCwd(old(s), s, p)
      ensures Gone(s, p) && s.devices == old(s.devices)
      ensures forall k :: k in old(s.open) && k.0 != p ==> k in s.open && s.open[k] == old(s.open)[k]
      ensures forall k :: k in s.open ==> k in old(s.open)
      ensures s.cwd == old(s.cwd) - {p}
    {
      hide FsOk, Counted, HoldersUndisturbed, Balanced;
      if acquired < TWO32 { NothingDone(s, acquired); }
      var i := 0;
      while i < MAX_OPEN_FILES
        invariant 0 <= i <= MAX_OPEN_FILES
        invariant Valid() && Undamaged(old(s)) && Accounted(old(s)) && acquired == old(acquired)
        invariant s.devices == old(s.devices) && s.cwd == old(s.cwd) && s.pending == None
        invariant forall k :: k in s.open <==> k in old(s.open) && (k.0 == p ==> i <= k.1)
        invariant forall k :: k in s.open ==> s.open[k] == old(s.open)[k]
      {
        if (p, i) in s.open {
          ghost var was := s;
          FsClose(s.open[(p, i)]);
          s := s.(open := s.open - {(p, i)});
          if acquired < TWO32 {
            CloseFdKeeps(was, (p, i), acquired);
            UndisturbedTwice(old(s), was, s);
          }
        }
        i := i + 1;
      }
      ghost var closed := s;
      s := s.(cwd := s.cwd - {p});
      if acquired < TWO32 {
        ForgetCwdKeeps(closed, p, acquired);
        OwesAfter(old(s), closed, s, p);
        UndisturbedTwice(old(s), closed, s);
      }
    }

    /** The child holds its own reference to the parent's working directory, or to the root. */
    method SetWorkingDirectory(parent: Option<nat>, child: nat, root: Answer) returns (ok: bool)
      requires Valid() && s.pending == None && child !in s.cwd
      requires parent.Some? ==> parent.value in s.cwd
      modifies this
      ensures Valid() && s.pending == None && Undamaged(old(s)) && Accounted(old(s))
      ensures s.open == old(s.open) && s.devices == old(s.devices)
      ensures acquired == old(acquired) + if ok then 1 else 0
      ensures !ok ==> s == old(s) && parent == None
      ensures ok ==> child in s.cwd && s.cwd == old(s.cwd)[child := s.cwd[child]]
      ensures ok && parent.Some? ==> s.cwd[child] == s.cwd[parent.value]
      ensures ok && parent == None ==> root.Found? && Matches(s.inodes[s.cwd[child]], root.dnode)
    {
      hide FsOk, Counted, HoldersUndisturbed, Balanced, FdsOk, Opened, Matches;
      if parent == None {
        var dir := FsOpen(root);
        OpenedFacts(old(s), root, s, dir);
        if dir == None {
          return false;
        }
      } else {
        if acquired < TWO32 { CountedLive(s, acquired); }
        FsDup(s.cwd[parent.value]);
      }
      ghost var held := s;
      s := s.(cwd := s.cwd[child := s.pending.value], pending := None);
      if acquired < TWO32 {
        StoreCwdKeeps(held, child, acquired);
        UndisturbedTwice(old(s), held, s);
      }
      return true;
    }

    /** Descriptors 0, 1 and 2 are the serial device. */
    method OpenStandardFiles(child: nat)
      requires Valid()
      modifies this
      ensures Valid() && Undamaged(old(s)) && Accounted(old(s)) && acquired == old(acquired)
      ensures s == old(s).(devices := old(s).devices + {(child, 0), (child, 1), (child, 2)})
    {
      hide FsOk, Counted, HoldersUndisturbed, Balanced, FdsOk;
      StandardFdsAdded(s.open, s.devices, child);
      s := s.(devices := s.devices + {(child, 0), (child, 1), (child, 2)});
      if acquired < TWO32 { DevicesKeep(old(s), s, acquired); }
    }

    /** The references of proc_exec: the program's inode is given back on every path, and a started
        child has the parent's working directory (or the root) and its three serial descriptors. */
    method ProcExec(parent: Option<nat>, child: nat, program: Answer, loads: bool, root: Answer) returns (r: Launched)
      requires Valid() && s.pending == None && Gone(s, child)
      requires parent.Some? ==> parent.value in s.cwd
      modifies this
      ensures Valid() && s.pending == None && Undamaged(old(s)) && Accounted(old(s)) && s.open == old(s.open)
      ensures r == Started ==> loads && program.Found? && child in s.cwd && s.cwd == old(s.cwd)[child := s.cwd[child]]
      ensures r == Started ==> s.devices == old(s.devices) + {(child, 0), (child, 1), (child, 2)}
      ensures r == Started && parent.Some? ==> s.cwd[child] == s.cwd[parent.value]
      ensures r == Started && parent == None ==> root.Found? && Matches(s.inodes[s.cwd[child]], root.dnode)
      ensures r == Failed ==> s.cwd == old(s.cwd) && s.devices == old(s.devices)
      ensures r == Failed && acquired < TWO32 ==> s.inodes == old(s.inodes)
      ensures parent.Some? ==> r != Panicked
      ensures program.NotFound? || !loads ==> r == Failed
      ensures acquired <= old(acquired) + 2
    {
      hide FsOk, Counted, HoldersUndisturbed, Balanced, FdsOk, Opened, Matches;
      var inode := FsOpen(program);
      OpenedFacts(old(s), program, s, inode);
      if inode == None {
        return Failed;
      }
      ghost var got := s;
      if !loads {
        ClosePending();
        if acquired < TWO32 {
          UndisturbedTwice(old(s), got, s);
          Undone(old(s), program, got, inode.value, old(acquired));
        }
        return Failed;
      }
      OpenStandardFiles(child);
      ghost var equipped := s;
      if acquired < TWO32 { UndisturbedTwice(old(s), got, s); }
      ClosePending();
      ghost var closed := s;
      if acquired < TWO32 { UndisturbedTwice(old(s), equipped, closed); }
      var settled := SetWorkingDirectory(parent, child, root);
      if acquired < TWO32 { UndisturbedTwice(old(s), closed, s); }
      if !settled {
        return Panicked;
      }
      return Started;
    }
  }
}
