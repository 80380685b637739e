/** Loading a program: its segments, one page and one program header after the other. */
module Exec {
  import opened Basics
  import opened PageTables
  import opened Vmm
  import opened AddressSpace

  const MAX_ARGV: int := 32
  const ELF_PROG_LOAD: int := 1
  const USER_STACK_TOP: int := 0x2000_0000_0000
  const USER_STACK_BOTTOM: int := 0x1FFF_FFFF_F000
  const INT_STACK_TOP: int := 0x4000_0000_0000

  function RoundUp(n: nat): nat {
    (n + PAGE_SIZE - 1) / PAGE_SIZE * PAGE_SIZE
  }

  function Zeros(n: nat): (z: seq<int>)
    ensures |z| == n
  {
    seq(n, i => 0)
  }

  // ----- what allocation and copying look like from inside the address space

  lemma AllocatedByte(m: Mem, m': Mem, root: nat, v0: nat, frames: seq<nat>, perm: Perm, r: nat, va: nat)
    requires MemOk(m) && Kept(m, m') && Claimed(m, m', root, v0, frames)
    requires Mapped(m, m', root, v0, frames, perm) && Unmapped(m, root, v0, |frames|)
    ensures Peek(m', r, va) ==
            if r == root && v0 * PAGE_SIZE <= va < (v0 + |frames|) * PAGE_SIZE then Some(0) else Peek(m, r, va)
  {
    hide Tree, Translate;
    var page := va / PAGE_SIZE;
    if r == root && v0 <= page < v0 + |frames| {
      assert m'.bytes[frames[page - v0]] == ZeroPage();
    } else {
      assert Translate(m', r, page) == Translate(m, r, page);
      if Translate(m, r, page).Some? {
        OwnedFrame(m, r, page);
      }
    }
  }

  /** Allocating pages is writing zeroes where nothing was mapped. */
  lemma AllocateWrites(m: Mem, m': Mem, root: nat, v0: nat, frames: seq<nat>, perm: Perm)
    requires MemOk(m) && Kept(m, m') && Claimed(m, m', root, v0, frames)
    requires Mapped(m, m', root, v0, frames, perm) && Unmapped(m, root, v0, |frames|)
    ensures Written(m, m', root, v0 * PAGE_SIZE, Zeros(|frames| * PAGE_SIZE))
    ensures Vacant(m, root, v0 * PAGE_SIZE, |frames| * PAGE_SIZE)
  {
    hide Translate, Peek, Kept, Claimed, Mapped, MemOk;
    var data := Zeros(|frames| * PAGE_SIZE);
    forall r: nat, va: nat ensures Peek(m', r, va) ==
      if r == root && v0 * PAGE_SIZE <= va < v0 * PAGE_SIZE + |data| then Some(data[va - v0 * PAGE_SIZE])
          else Peek(m, r, va)
    {
      AllocatedByte(m, m', root, v0, frames, perm, r, va);
    }
    forall va | v0 * PAGE_SIZE <= va < v0 * PAGE_SIZE + |frames| * PAGE_SIZE ensures Peek(m, root, va) == None {
      assert v0 <= va / PAGE_SIZE < v0 + |frames|;
      UnmappedByte(m, root, v0, |frames|, va);
    }
  }

  lemma UnmappedByte(m: Mem, root: nat, v0: nat, n: nat, va: nat)
    requires Unmapped(m, root, v0, n) && v0 <= va / PAGE_SIZE < v0 + n
    ensures Peek(m, root, va) == None
  {
  }

  /** Nothing is mapped at any of these addresses. */
  ghost predicate Vacant(m: Mem, root: nat, va: nat, n: nat) {
    forall a: nat :: va <= a < va + n ==> Peek(m, root, a) == None
  }

  /** Reading from `va` on gives `data`. */
  ghost predicate Reads(m: Mem, root: nat, va: nat, data: seq<int>) {
    forall j :: 0 <= j < |data| ==> Peek(m, root, va + j) == Some(data[j])
  }

  lemma WrittenReads(m: Mem, m': Mem, root: nat, va: nat, data: seq<int>)
    requires Written(m, m', root, va, data)
    ensures Reads(m', root, va, data)
  {
    hide Peek;
    forall j | 0 <= j < |data| ensures Peek(m', root, va + j) == Some(data[j]) {
      assert va <= va + j < va + |data|;
    }
  }

  /** A write elsewhere leaves what was readable before. */
  lemma ReadsElsewhere(m: Mem, m': Mem, root: nat, va: nat, data: seq<int>, at: nat, old_: seq<int>)
    requires Written(m, m', root, va, data) && Reads(m, root, at, old_)
    requires at + |old_| <= va || va + |data| <= at
    ensures Reads(m', root, at, old_)
  {
    hide Peek;
    forall j | 0 <= j < |old_| ensures Peek(m', root, at + j) == Some(old_[j]) {
      assert Peek(m, root, at + j) == Some(old_[j]);
    }
  }

  /** What is readable does not overlap what is vacant. */
  lemma ReadsNotVacant(m: Mem, m': Mem, root: nat, va: nat, data: seq<int>, at: nat, old_: seq<int>)
    requires Written(m, m', root, va, data) && Reads(m, root, at, old_) && Vacant(m, root, va, |data|)
    ensures Reads(m', root, at, old_)
  {
    hide Peek;
    forall j | 0 <= j < |old_| ensures Peek(m', root, at + j) == Some(old_[j]) {
      assert Peek(m, root, at + j) == Some(old_[j]);
    }
  }

  /** Overwriting the front of what was just written. */
  lemma WrittenOver(m: Mem, m1: Mem, m2: Mem, root: nat, va: nat, data: seq<int>, front: seq<int>)
    requires Written(m, m1, root, va, data) && Written(m1, m2, root, va, front) && |front| <= |data|
    ensures Written(m, m2, root, va, front + data[|front|..])
  {
  }

  // ----- load_segment

  /** Endless: the loop counter wraps to 0 before it reaches the size, so the loop starts over on the
      same pages and the same part of the file, and never ends. */
  datatype LoadResult = Loaded | Bad | LoadPanic | Endless

  /** All pages of `[va, va + n)` are mapped for user mode. */
  ghost predicate UserMapped(m: Mem, root: nat, va: nat, n: nat) {
    forall p: nat :: va / PAGE_SIZE <= p && p * PAGE_SIZE < va + n ==>
      UserPage(p) && Translate(m, root, p).Some? && Translate(m, root, p).value.us
  }

  /** `n` bytes of the file; reading nothing is possible anywhere. */
  function Part(file: seq<int>, offset: nat, n: nat): (p: seq<int>)
    requires n > 0 ==> offset + n <= |file|
    ensures |p| == n
  {
    if n == 0 then [] else file[offset..offset + n]
  }

  lemma PartMore(file: seq<int>, offset: nat, i: nat, n: nat)
    requires offset + i + n <= |file|
    ensures Part(file, offset, i) + file[offset + i..offset + i + n] == Part(file, offset, i + n)
  {
  }

  /** What a read that runs past the end of the file still delivers. */
  function Tail(file: seq<int>, from: nat): (t: seq<int>)
    ensures |t| == if from < |file| then |file| - from else 0
    ensures forall k: nat :: k < |t| ==> t[k] == file[from + k]
  {
    if from <= |file| then file[from..] else []
  }

  /** One turn of load_segment's loop: reads `n` bytes at `from` into the page at `va`.  A short read
      leaves what there was. */
  method LoadPage(v: Manager, root: nat, file: seq<int>, va: nat, from: nat, n: nat) returns (r: LoadResult)
    requires MemOk(v.m) && IsRoot(v.m, root) && va % PAGE_SIZE == 0 && va >= VPN_MIN * PAGE_SIZE && n <= PAGE_SIZE
    modifies v
    ensures SameButBytes(old(v.m), v.m)
    ensures r.Loaded? ==> from + n <= |file| && Written(old(v.m), v.m, root, va, file[from..from + n])
    ensures r.Bad? ==> from + n > |file| && Written(old(v.m), v.m, root, va, Tail(file, from))
    ensures r.LoadPanic? ==> v.m == old(v.m)
    ensures !r.Endless?
    ensures r.LoadPanic? ==> var p := va / PAGE_SIZE;
                             !(UserPage(p) && Translate(v.m, root, p).Some? && Translate(v.m, root, p).value.us)
  {
    hide MemOk, Tree, FramesOk, Translate, Prefix, SameFlat, Written, StoreBytes, SameButBytes;
    ghost var m0 := v.m;
    SameButBytesSelf(m0);
    SameButBytesFacts(m0, m0, root, va / PAGE_SIZE);
    FrameNotZero(m0, root, va / PAGE_SIZE);
    var frame := v.WalkAddr(root, va, true);
    if frame == None {
      return LoadPanic;
    }
    var data := if from + n > |file| then Tail(file, from) else file[from..from + n];
    StoreBytesWritten(m0, root, va / PAGE_SIZE, 0, data);
    v.m := StoreBytes(v.m, frame.value, 0, data);
    SameButBytesStep(m0, m0, v.m, frame.value, 0, data);
    return if from + n > |file| then Bad else Loaded;
  }

  /** load_segment: fills the pages of a segment from the file through the frames behind them.  The
      sizes are uint32_t, and so are the loop counter and the file position.  A file's size is a
      uint32_t as well. */
  method LoadSegment(v: Manager, root: nat, file: seq<int>, va: nat, offset: nat, sz: nat) returns (r: LoadResult)
    requires MemOk(v.m) && IsRoot(v.m, root) && va % PAGE_SIZE == 0 && va >= VPN_MIN * PAGE_SIZE
    requires |file| < TWO32 && offset < TWO32 && sz < TWO32
    modifies v
    ensures SameButBytes(old(v.m), v.m)
    ensures r.Loaded? ==> sz <= TWO32 - PAGE_SIZE
    ensures r.Endless? ==> sz > TWO32 - PAGE_SIZE && offset + sz <= |file|
    ensures r.Loaded? ==> (sz > 0 ==> offset + sz <= |file|) && Written(old(v.m), v.m, root, va, Part(file, offset, sz))
    ensures r.Bad? ==> sz > 0 && offset + sz > |file|
    ensures r.LoadPanic? ==> !UserMapped(old(v.m), root, va, sz)
  {
    hide MemOk, Translate, Written, SameButBytes, UserMapped, Part, SameFlat, IsRoot, UserPage;
    ghost var m0 := v.m;
    SameButBytesSelf(m0);
    WrittenNothing(m0, root, va);
    PartNothing(file, offset);
    ghost var done := 0;
    var i := 0;
    while i < sz
      invariant 0 <= i && 0 <= done <= sz && (if i < sz then i == done else done == sz)
      invariant i % PAGE_SIZE == 0 && i <= TWO32 - PAGE_SIZE
      invariant done > 0 ==> offset + done <= |file|
      invariant SameButBytes(m0, v.m) && Written(m0, v.m, root, va, Part(file, offset, done))
      decreases sz - i
    {
      ghost var cur := v.m;
      var at := va + i;
      var from := (offset + i) % TWO32;
      PagePosition(va, i, offset, |file|);
      UserMappedAt(m0, cur, root, va, sz, i);
      var n := if sz - i < PAGE_SIZE then sz - i else PAGE_SIZE;
      r := LoadPage(v, root, file, at, from, n);
      SameButBytesTwice(m0, cur, v.m);
      if !r.Loaded? {
        return;
      }
      WrittenMore(m0, cur, v.m, root, va, Part(file, offset, i), file[from..from + n]);
      PartMore(file, offset, i, n);
      if i == TWO32 - PAGE_SIZE {
        return Endless;
      }
      PageAfter(i);
      i, done := i + PAGE_SIZE, i + n;
    }
    return Loaded;
  }

  lemma PartNothing(file: seq<int>, offset: nat)
    ensures Part(file, offset, 0) == []
  {
  }

  /** The next page is aligned, and the uint32_t file position has not wrapped. */
  lemma PagePosition(va: nat, i: nat, offset: nat, size: nat)
    requires va % PAGE_SIZE == 0 && i % PAGE_SIZE == 0 && offset < TWO32 && size < TWO32
    requires i > 0 ==> offset + i <= size
    ensures (va + i) % PAGE_SIZE == 0 && (offset + i) % TWO32 == offset + i && (i + PAGE_SIZE) % PAGE_SIZE == 0
  {
  }

  lemma PageAfter(i: nat)
    requires i % PAGE_SIZE == 0 && i < TWO32 - PAGE_SIZE
    ensures (i + PAGE_SIZE) % PAGE_SIZE == 0 && i + PAGE_SIZE <= TWO32 - PAGE_SIZE
  {
  }

  lemma UserMappedAt(m: Mem, cur: Mem, root: nat, va: nat, n: nat, i: nat)
    requires SameButBytes(m, cur) && IsRoot(m, root) && i < n && (va + i) % PAGE_SIZE == 0
    ensures MemOk(cur) && IsRoot(cur, root)
    ensures var p := (va + i) / PAGE_SIZE;
            UserMapped(m, root, va, n) ==>
              UserPage(p) && Translate(cur, root, p).Some? && Translate(cur, root, p).value.us
  {
    hide MemOk, Translate;
    SameButBytesFacts(m, cur, root, (va + i) / PAGE_SIZE);
  }

  // ----- the program header loop

  datatype ProgramHeader = ProgramHeader(type_: int, flags: nat, off: nat, vaddr: nat, filesz: nat, memsz: nat)

  function FlagsToPerm(flags: nat): Perm {
    Perm(flags / 2 % 2 == 1, flags % 2 == 1, true)
  }

  /** What load_segment sees of the file size: its low 32 bits. */
  function LoadSize(ph: ProgramHeader): nat {
    ph.filesz % TWO32
  }

  function LoadOffset(ph: ProgramHeader): nat {
    ph.off % TWO32
  }

  /** The file part of the segment is in the file. */
  predicate InFile(file: seq<int>, ph: ProgramHeader) {
    LoadSize(ph) > 0 ==> LoadOffset(ph) + LoadSize(ph) <= |file|
  }

  /** What a segment reads as: its bytes from the file, then zeroes up to the end of the last page. */
  function Image(file: seq<int>, ph: ProgramHeader): seq<int>
    requires InFile(file, ph) && ph.filesz <= ph.memsz
  {
    Part(file, LoadOffset(ph), LoadSize(ph)) + Zeros(RoundUp(ph.memsz) - LoadSize(ph))
  }

  // ----- what the header asks for

  /** The file part the header asks for is in the file. */
  predicate Contained(file: seq<int>, ph: ProgramHeader) {
    ph.filesz > 0 ==> ph.off + ph.filesz <= |file|
  }

  /** What the segment should read as. */
  function FileImage(file: seq<int>, ph: ProgramHeader): seq<int>
    requires Contained(file, ph) && ph.filesz <= ph.memsz
  {
    Part(file, ph.off, ph.filesz) + Zeros(RoundUp(ph.memsz) - ph.filesz)
  }

  ghost predicate ReadsAsFile(m: Mem, root: nat, file: seq<int>, ph: ProgramHeader) {
    ph.filesz <= ph.memsz && Contained(file, ph) && Reads(m, root, ph.vaddr, FileImage(file, ph))
  }

  /** Nothing is lost when size and position are cut down to 32 bits. */
  predicate Fits32(ph: ProgramHeader) {
    ph.filesz == 0 || (ph.off < TWO32 && ph.filesz < TWO32)
  }

  /** A segment that was accepted reads as its header asks exactly when size and position fit. */
  lemma ReadsAsFileIff(m: Mem, root: nat, file: seq<int>, ph: ProgramHeader)
    requires |file| < TWO32 && ph.filesz <= ph.memsz && InFile(file, ph) && Reads(m, root, ph.vaddr, Image(file, ph))
    ensures ReadsAsFile(m, root, file, ph) <==> Fits32(ph)
  {
    hide Reads;
    if Fits32(ph) {
      assert LoadSize(ph) == ph.filesz;
      assert Image(file, ph) == FileImage(file, ph);
    }
  }

  /** A 16-byte file whose header asks for 16 bytes at 2^32: accepted, and loaded from offset 0. */
  lemma OffsetCutDown(file: seq<int>)
    requires |file| == 16
    ensures var ph := ProgramHeader(ELF_PROG_LOAD, 4, TWO32, VA_MIN, 16, 16);
            && !Malformed(file, ph) && !Contained(file, ph)
            && Image(file, ph)[..16] == file
  {
    var ph := ProgramHeader(ELF_PROG_LOAD, 4, TWO32, VA_MIN, 16, 16);
    assert LoadOffset(ph) == 0 && LoadSize(ph) == 16;
    assert Part(file, 0, 16) == file;
  }

  /** The same file, and a header asking for 2^32 bytes of it: accepted, and read as zeroes. */
  lemma SizeCutDown(file: seq<int>)
    requires |file| == 16
    ensures var ph := ProgramHeader(ELF_PROG_LOAD, 4, 0, VA_MIN, TWO32, TWO32);
            && !Malformed(file, ph) && !Contained(file, ph)
            && Image(file, ph) == Zeros(TWO32)
  {
    var ph := ProgramHeader(ELF_PROG_LOAD, 4, 0, VA_MIN, TWO32, TWO32);
    assert LoadSize(ph) == 0 && RoundUp(TWO32) == TWO32;
  }

  lemma RoundUpFacts(n: nat)
    ensures RoundUp(n) % PAGE_SIZE == 0 && n <= RoundUp(n) < n + PAGE_SIZE
    ensures RoundUp(n) == 0 <==> n == 0
  {
  }

  /** The pages of `root` after a segment is loaded: the old ones as they were, and the new ones. */
  ghost predicate PagesAdded(m: Mem, m': Mem, root: nat, v0: nat, n: nat) {
    && (forall r: nat, p: nat :: !(r == root && v0 <= p < v0 + n) ==> Translate(m', r, p) == Translate(m, r, p))
    && (forall p: nat :: v0 <= p < v0 + n ==> Translate(m', root, p).Some? && Translate(m, root, p) == None)
  }

  /** Pages that were mapped are mapped as before, other address spaces are as before, and so are the
      kernel's tables. */
  ghost predicate Extends(m: Mem, m': Mem, root: nat) {
    && (forall r: nat, p: nat :: (r != root || Translate(m, r, p).Some?) ==> Translate(m', r, p) == Translate(m, r, p))
    && KernelSame(m, m')
  }

  lemma ExtendsSelf(m: Mem, root: nat)
    ensures Extends(m, m, root)
  {
  }

  lemma ExtendsTwice(a: Mem, b: Mem, c: Mem, root: nat)
    requires Extends(a, b, root) && Extends(b, c, root)
    ensures Extends(a, c, root)
  {
    hide Translate;
    forall r: nat, p: nat | r != root || Translate(a, r, p).Some? ensures Translate(c, r, p) == Translate(a, r, p) {
      assert Translate(b, r, p) == Translate(a, r, p);
    }
  }

  /** Mapping free pages, and then writing bytes, extends. */
  lemma MappedExtends(m: Mem, m1: Mem, m2: Mem, root: nat, v0: nat, frames: seq<nat>, perm: Perm)
    requires Mapped(m, m1, root, v0, frames, perm) && Unmapped(m, root, v0, |frames|) && Kept(m, m1)
    requires SameButBytes(m1, m2)
    ensures Extends(m, m2, root)
  {
    hide Translate, MemOk, Shrunk;
    forall r: nat, p: nat | r != root || Translate(m, r, p).Some? ensures Translate(m2, r, p) == Translate(m, r, p) {
      assert Translate(m2, r, p) == Translate(m1, r, p);
    }
  }

  lemma MappedAdds(m: Mem, m': Mem, m'': Mem, root: nat, v0: nat, frames: seq<nat>, perm: Perm)
    requires Mapped(m, m', root, v0, frames, perm) && Unmapped(m, root, v0, |frames|) && SameFlat(m', m'')
    ensures PagesAdded(m, m'', root, v0, |frames|)
    ensures forall p: nat :: v0 <= p < v0 + |frames| ==> Translate(m'', root, p) == Some(Leaf(perm, frames[p - v0]))
  {
    hide Translate;
    forall p: nat | v0 <= p < v0 + |frames| ensures Translate(m'', root, p) == Some(Leaf(perm, frames[p - v0])) {
      assert Translate(m'', root, p) == Translate(m', root, p);
    }
    forall r: nat, p: nat | !(r == root && v0 <= p < v0 + |frames|) ensures Translate(m'', r, p) == Translate(m, r, p) {
      assert Translate(m'', r, p) == Translate(m', r, p);
    }
  }

  lemma JustAllocated(m: Mem, m': Mem, root: nat, va: nat, frames: seq<nat>, perm: Perm, n: nat, size: nat)
    requires Mapped(m, m', root, va / PAGE_SIZE, frames, perm) && perm.userspace && va % PAGE_SIZE == 0
    requires |frames| * PAGE_SIZE == size && n <= size
    requires forall p: nat :: va / PAGE_SIZE <= p < va / PAGE_SIZE + |frames| ==> UserPage(p)
    ensures UserMapped(m', root, va, n)
  {
    hide Translate;
    forall p: nat | va / PAGE_SIZE <= p && p * PAGE_SIZE < va + n
      ensures UserPage(p) && Translate(m', root, p).Some? && Translate(m', root, p).value.us
    {
      assert p < va / PAGE_SIZE + |frames|;
      assert Translate(m', root, p) == Some(Leaf(perm, frames[p - va / PAGE_SIZE]));
    }
  }

  /** Memory in which a segment was added: invariants and the root are kept. */
  ghost predicate Sound(m: Mem, root: nat) {
    MemOk(m) && IsRoot(m, root)
  }

  lemma SoundAfter(m: Mem, m1: Mem, m2: Mem, root: nat)
    requires Sound(m, root) && Kept(m, m1)
    ensures Sound(m1, root)
    ensures SameButBytes(m1, m2) ==> Sound(m2, root) && SameFlat(m1, m2)
  {
  }

  predicate InSegment(ph: ProgramHeader, p: nat) {
    ph.vaddr / PAGE_SIZE <= p < ph.vaddr / PAGE_SIZE + RoundUp(ph.memsz) / PAGE_SIZE
  }

  /** What vmm_allocate panics on: nothing to map, a page outside the user range, or a mapped one. */
  ghost predicate Clash(m: Mem, root: nat, ph: ProgramHeader) {
    ph.memsz == 0 || exists p: nat :: InSegment(ph, p) && (!UserPage(p) || Translate(m, root, p).Some?)
  }

  /** What proc_exec refuses a header for, apart from running out of memory. */
  predicate Malformed(file: seq<int>, ph: ProgramHeader) {
    ph.memsz < ph.filesz || ph.vaddr + ph.memsz >= TWO64 || ph.vaddr % PAGE_SIZE != 0 || !InFile(file, ph)
  }

  predicate Refused(file: seq<int>, h: Option<ProgramHeader>) {
    h == None || (h.value.type_ == ELF_PROG_LOAD && Malformed(file, h.value))
  }

  /** The page is the user's, and may be written or executed exactly as the flags say. */
  predicate Guards(e: Pte, flags: nat) {
    e.present && e.us && (e.rw <==> flags / 2 % 2 == 1) && (e.xd <==> flags % 2 == 0)
  }

  /** All pages of the segment are mapped with the protection its header asks for. */
  ghost predicate Protected(m: Mem, root: nat, ph: ProgramHeader) {
    forall p: nat :: ph.vaddr / PAGE_SIZE <= p < ph.vaddr / PAGE_SIZE + RoundUp(ph.memsz) / PAGE_SIZE ==>
                       Translate(m, root, p).Some? && Guards(Translate(m, root, p).value, ph.flags)
  }

  ghost predicate AllProtected(m: Mem, root: nat, headers: seq<Option<ProgramHeader>>) {
    forall h :: h in headers && IsLoad(h) ==> Protected(m, root, h.value)
  }

  lemma ProtectedNow(m: Mem, root: nat, ph: ProgramHeader, frames: seq<nat>)
    requires |frames| == RoundUp(ph.memsz) / PAGE_SIZE
    requires forall p: nat :: ph.vaddr / PAGE_SIZE <= p < ph.vaddr / PAGE_SIZE + |frames| ==>
                                Translate(m, root, p) == Some(Leaf(FlagsToPerm(ph.flags),
                                    frames[p - ph.vaddr / PAGE_SIZE]))
    ensures Protected(m, root, ph)
  {
    hide Translate, RoundUp;
  }

  /** Protection stays as long as mapped pages stay as they are. */
  lemma ProtectedKept(m: Mem, m': Mem, root: nat, headers: seq<Option<ProgramHeader>>)
    requires AllProtected(m, root, headers)
    requires forall p: nat :: Translate(m, root, p).Some? ==> Translate(m', root, p) == Translate(m, root, p)
    ensures AllProtected(m', root, headers)
  {
    hide Translate, RoundUp, Guards;
    forall h | h in headers && IsLoad(h) ensures Protected(m', root, h.value) {
      assert Protected(m, root, h.value);
    }
  }

  lemma ProtectedAdds(m: Mem, m': Mem, root: nat, v0: nat, n: nat, headers: seq<Option<ProgramHeader>>,
      h: Option<ProgramHeader>)
    requires AllProtected(m, root, headers) && PagesAdded(m, m', root, v0, n)
    requires IsLoad(h) ==> Protected(m', root, h.value)
    ensures AllProtected(m', root, headers + [h])
  {
    hide Translate, Protected;
    ProtectedKept(m, m', root, headers);
  }

  lemma NoneToProtect(m: Mem, root: nat)
    ensures AllProtected(m, root, [])
  {
  }

  lemma ProtectedSkips(m: Mem, root: nat, headers: seq<Option<ProgramHeader>>, h: Option<ProgramHeader>)
    requires AllProtected(m, root, headers) && !IsLoad(h)
    ensures AllProtected(m, root, headers + [h])
  {
    hide Protected;
  }

  /** One PT_LOAD header. */
  method LoadOne(v: Manager, root: nat, file: seq<int>, ph: ProgramHeader) returns (r: LoadResult)
    requires Sound(v.m, root) && |file| < TWO32
    modifies v
    ensures Sound(v.m, root) && Extends(old(v.m), v.m, root)
    ensures r.Loaded? ==>
              && !Malformed(file, ph) && !Clash(old(v.m), root, ph) && LoadSize(ph) <= TWO32 - PAGE_SIZE
              && Vacant(old(v.m), root, ph.vaddr, |Image(file, ph)|)
              && Written(old(v.m), v.m, root, ph.vaddr, Image(file, ph))
              && PagesAdded(old(v.m), v.m, root, ph.vaddr / PAGE_SIZE, RoundUp(ph.memsz) / PAGE_SIZE)
              && Protected(v.m, root, ph)
    ensures r.Bad? ==> Malformed(file, ph) || v.m.free == []
    ensures r.LoadPanic? ==> Clash(old(v.m), root, ph)
    ensures r.Endless? ==> LoadSize(ph) > TWO32 - PAGE_SIZE && InFile(file, ph)
  {
    hide MemOk, Translate, Written, Mapped, Unmapped, SameFlat, SameButBytes, UserMapped, Claimed, Kept;
    hide Vacant, PagesAdded, IsRoot, Sound, Part, Zeros, NoDup, RoundUp, Protected, Leaf, Extends, Clash;
    ghost var m0 := v.m;
    ExtendsSelf(m0, root);
    if ph.memsz < ph.filesz || ph.vaddr + ph.memsz >= TWO64 || ph.vaddr % PAGE_SIZE != 0 {
      return Bad;
    }
    RoundUpFacts(ph.memsz);
    SoundParts(m0, root);
    ghost var perm := FlagsToPerm(ph.flags);
    var a, frames := v.Allocate(root, ph.vaddr, RoundUp(ph.memsz), FlagsToPerm(ph.flags));
    ghost var m1 := v.m;
    SoundAfter(m0, m1, m1, root);
    SoundParts(m1, root);
    SameButBytesSelf(m1);
    MappedExtends(m0, m1, m1, root, ph.vaddr / PAGE_SIZE, frames, perm);
    if a.Panic? {
      ClashAt(m0, root, ph, |frames|);
      return LoadPanic;
    }
    if a.Oom? {
      return Bad;
    }
    AllocateWrites(m0, m1, root, ph.vaddr / PAGE_SIZE, frames, perm);
    assert |frames| * PAGE_SIZE == RoundUp(ph.memsz);
    AllPagesUser(m0, m1, root, ph.vaddr, frames, perm);
    JustAllocated(m0, m1, root, ph.vaddr, frames, perm, LoadSize(ph), RoundUp(ph.memsz));
    r := LoadSegment(v, root, file, ph.vaddr, LoadOffset(ph), LoadSize(ph));
    SoundAfter(m0, m1, v.m, root);
    MappedExtends(m0, m1, v.m, root, ph.vaddr / PAGE_SIZE, frames, perm);
    if r.Loaded? {
      ImageIs(file, ph);
      WrittenOver(m0, m1, v.m, root, ph.vaddr, Zeros(RoundUp(ph.memsz)), Part(file, LoadOffset(ph), LoadSize(ph)));
      MappedAdds(m0, m1, v.m, root, ph.vaddr / PAGE_SIZE, frames, perm);
      ProtectedNow(v.m, root, ph, frames);
      NoClash(m0, root, ph, |frames|);
    }
  }

  lemma ClashAt(m: Mem, root: nat, ph: ProgramHeader, k: nat)
    requires ph.memsz > 0 ==> k < RoundUp(ph.memsz) / PAGE_SIZE
    requires ph.memsz > 0 ==> var p := ph.vaddr / PAGE_SIZE + k; !UserPage(p) || Translate(m, root, p).Some?
    ensures Clash(m, root, ph)
  {
    hide Translate, RoundUp;
    assert ph.memsz > 0 ==> InSegment(ph, ph.vaddr / PAGE_SIZE + k);
  }

  lemma NoClash(m: Mem, root: nat, ph: ProgramHeader, n: nat)
    requires ph.memsz > 0 && n == RoundUp(ph.memsz) / PAGE_SIZE && Unmapped(m, root, ph.vaddr / PAGE_SIZE, n)
    requires forall p: nat :: ph.vaddr / PAGE_SIZE <= p < ph.vaddr / PAGE_SIZE + n ==> UserPage(p)
    ensures !Clash(m, root, ph)
  {
    hide Translate, RoundUp;
  }

  lemma SoundParts(m: Mem, root: nat)
    requires Sound(m, root)
    ensures MemOk(m) && IsRoot(m, root)
  {
  }

  lemma ImageIs(file: seq<int>, ph: ProgramHeader)
    requires InFile(file, ph) && ph.filesz <= ph.memsz
    ensures LoadSize(ph) <= RoundUp(ph.memsz)
    ensures Part(file, LoadOffset(ph), LoadSize(ph)) + Zeros(RoundUp(ph.memsz))[LoadSize(ph)..] == Image(file, ph)
    ensures |Image(file, ph)| == RoundUp(ph.memsz)
  {
    RoundUpFacts(ph.memsz);
  }

  /** Pages that are mapped are user range pages. */
  lemma AllPagesUser(m: Mem, m': Mem, root: nat, va: nat, frames: seq<nat>, perm: Perm)
    requires Mapped(m, m', root, va / PAGE_SIZE, frames, perm) && MemOk(m')
    ensures forall p: nat :: va / PAGE_SIZE <= p < va / PAGE_SIZE + |frames| ==> UserPage(p)
    ensures |frames| > 0 ==> va >= VPN_MIN * PAGE_SIZE
  {
    hide Owned, FramesOk;
    forall p: nat | va / PAGE_SIZE <= p < va / PAGE_SIZE + |frames| ensures UserPage(p) {
      assert Translate(m', root, p).Some?;
      TableAt(m', OnPath(root, p, 1));
      assert Prefix(p, 1) == p / 512;
    }
    assert |frames| > 0 ==> UserPage(va / PAGE_SIZE);
  }

  /** The end of the last loaded segment, rounded up to a page. */
  function DataEnd(headers: seq<Option<ProgramHeader>>): nat {
    if headers == [] then 0
    else
      var rest := DataEnd(headers[..|headers| - 1]);
      var h := headers[|headers| - 1];
      if h.Some? && h.value.type_ == ELF_PROG_LOAD && h.value.vaddr + RoundUp(h.value.memsz) > rest
      then h.value.vaddr + RoundUp(h.value.memsz) else rest
  }

  /** The end of segment `h`, at a page boundary. */
  function Top(h: Option<ProgramHeader>): nat
    requires IsLoad(h)
  {
    h.value.vaddr + RoundUp(h.value.memsz)
  }

  /** It is the end of the highest segment, and 0 without any. */
  lemma {:induction false} DataEndIsHighest(headers: seq<Option<ProgramHeader>>)
    ensures forall h :: h in headers && IsLoad(h) ==> Top(h) <= DataEnd(headers)
    ensures DataEnd(headers) == 0 || exists h :: h in headers && IsLoad(h) && Top(h) == DataEnd(headers)
  {
    hide RoundUp;
    if headers != [] {
      var front, last := headers[..|headers| - 1], headers[|headers| - 1];
      DataEndIsHighest(front);
      assert headers == front + [last];
      assert last in headers;
    }
  }

  predicate IsLoad(h: Option<ProgramHeader>) {
    h.Some? && h.value.type_ == ELF_PROG_LOAD
  }

  /** Segment `h`, if it is to be loaded, reads as its image. */
  ghost predicate ImageThere(m: Mem, root: nat, file: seq<int>, h: Option<ProgramHeader>) {
    IsLoad(h) ==>
      && h.value.filesz <= h.value.memsz && InFile(file, h.value)
      && Reads(m, root, h.value.vaddr, Image(file, h.value))
  }

  /** Pages mapped at the start are still mapped the same way; every other mapped page of `root`
      lies below `end`; other address spaces are untouched. */
  ghost predicate OnlyBelow(m: Mem, m': Mem, root: nat, end: nat) {
    Extends(m, m', root)
    && forall p: nat :: Translate(m', root, p).Some? && Translate(m, root, p) == None ==> p * PAGE_SIZE < end
  }

  lemma OnlyBelowSelf(m: Mem, root: nat)
    ensures OnlyBelow(m, m, root, 0)
  {
  }

  lemma OnlyBelowStep(m: Mem, cur: Mem, next: Mem, root: nat, end: nat, v0: nat, n: nat, end': nat)
    requires OnlyBelow(m, cur, root, end) && PagesAdded(cur, next, root, v0, n) && Extends(cur, next, root)
    requires end' >= end && end' >= (v0 + n) * PAGE_SIZE
    ensures OnlyBelow(m, next, root, end')
  {
    hide Translate, KernelSame;
    ExtendsTwice(m, cur, next, root);
    forall p: nat | Translate(next, root, p).Some? && Translate(m, root, p) == None ensures p * PAGE_SIZE < end' {
      if !(v0 <= p < v0 + n) {
        assert Translate(next, root, p) == Translate(cur, root, p);
      }
    }
  }

  lemma ImagesKept(m: Mem, m': Mem, root: nat, file: seq<int>, headers: seq<Option<ProgramHeader>>, va: nat,
      data: seq<int>)
    requires forall h :: h in headers ==> ImageThere(m, root, file, h)
    requires Written(m, m', root, va, data) && Vacant(m, root, va, |data|)
    ensures forall h :: h in headers ==> ImageThere(m', root, file, h)
  {
    hide Written, Reads, Vacant, Image;
    forall h | h in headers && IsLoad(h) ensures ImageThere(m', root, file, h) {
      assert ImageThere(m, root, file, h);
      ReadsNotVacant(m, m', root, va, data, h.value.vaddr, Image(file, h.value));
    }
  }

  /** Nothing was mapped at the start where segment `h` goes. */
  ghost predicate RoomFor(m: Mem, root: nat, file: seq<int>, h: Option<ProgramHeader>) {
    IsLoad(h) && h.value.filesz <= h.value.memsz && InFile(file, h.value) ==>
      Vacant(m, root, h.value.vaddr, |Image(file, h.value)|)
  }

  lemma VacantFromStart(m: Mem, cur: Mem, root: nat, end: nat, va: nat, n: nat)
    requires Sound(cur, root) && OnlyBelow(m, cur, root, end) && Vacant(cur, root, va, n)
    ensures Vacant(m, root, va, n)
  {
    hide Tree, FramesOk, Translate;
    forall a: nat | va <= a < va + n ensures Peek(m, root, a) == None {
      var p := a / PAGE_SIZE;
      assert Peek(cur, root, a) == None;
      if Translate(m, root, p).Some? {
        assert Translate(cur, root, p) == Translate(m, root, p);
        OwnedFrame(cur, root, p);
      }
    }
  }

  lemma RoomFromStart(m: Mem, cur: Mem, root: nat, end: nat, file: seq<int>, h: Option<ProgramHeader>)
    requires Sound(cur, root) && OnlyBelow(m, cur, root, end)
    requires IsLoad(h) && h.value.filesz <= h.value.memsz && InFile(file, h.value)
    requires Vacant(cur, root, h.value.vaddr, |Image(file, h.value)|)
    ensures RoomFor(m, root, file, h)
  {
    hide Image;
    VacantFromStart(m, cur, root, end, h.value.vaddr, |Image(file, h.value)|);
  }

  /** Page `p` belongs to one of the segments. */
  predicate Covered(headers: seq<Option<ProgramHeader>>, p: nat) {
    exists h :: h in headers && IsLoad(h) && InSegment(h.value, p)
  }

  /** Header `i` makes proc_exec panic, if it comes to it: it maps nothing, or a page outside the user
      range, one that was mapped at the start, or one of an earlier segment. */
  ghost predicate Clashes(m: Mem, root: nat, headers: seq<Option<ProgramHeader>>, i: nat)
    requires i < |headers|
  {
    IsLoad(headers[i]) &&
      var ph := headers[i].value;
      ph.memsz == 0 || exists p: nat :: InSegment(ph, p) &&
                         (!UserPage(p) || Translate(m, root, p).Some? || Covered(headers[..i], p))
  }

  /** The mapped pages are those of the start and those of the segments so far. */
  ghost predicate PagesAre(m: Mem, cur: Mem, root: nat, headers: seq<Option<ProgramHeader>>) {
    forall p: nat :: Translate(cur, root, p).Some? <==> Translate(m, root, p).Some? || Covered(headers, p)
  }

  lemma PagesAreSelf(m: Mem, root: nat)
    ensures PagesAre(m, m, root, [])
  {
  }

  lemma CoveredMore(headers: seq<Option<ProgramHeader>>, h: Option<ProgramHeader>, p: nat)
    ensures Covered(headers + [h], p) <==> Covered(headers, p) || (IsLoad(h) && InSegment(h.value, p))
  {
    hide InSegment;
    if IsLoad(h) && InSegment(h.value, p) {
      assert h in headers + [h];
    }
    if Covered(headers, p) {
      var g :| g in headers && IsLoad(g) && InSegment(g.value, p);
      assert g in headers + [h];
    }
  }

  lemma PagesAreStep(m: Mem, cur: Mem, next: Mem, root: nat, headers: seq<Option<ProgramHeader>>,
      h: Option<ProgramHeader>)
    requires PagesAre(m, cur, root, headers)
    requires if IsLoad(h)
             then PagesAdded(cur, next, root, h.value.vaddr / PAGE_SIZE, RoundUp(h.value.memsz) / PAGE_SIZE)
             else next == cur
    ensures PagesAre(m, next, root, headers + [h])
  {
    hide Translate, Covered, RoundUp;
    forall p: nat ensures Translate(next, root, p).Some? <==> Translate(m, root, p).Some? || Covered(headers + [h], p) {
      CoveredMore(headers, h, p);
      if IsLoad(h) && !InSegment(h.value, p) {
        assert Translate(next, root, p) == Translate(cur, root, p);
      }
    }
  }

  lemma ClashIsClashes(m: Mem, cur: Mem, root: nat, headers: seq<Option<ProgramHeader>>, i: nat)
    requires i < |headers| && IsLoad(headers[i]) && PagesAre(m, cur, root, headers[..i])
    ensures Clash(cur, root, headers[i].value) <==> Clashes(m, root, headers, i)
  {
    hide Translate, Covered, InSegment, UserPage;
  }

  /** The first page of a segment that loads is in the user range. */
  lemma AboveMin(m: Mem, root: nat, ph: ProgramHeader)
    requires !Clash(m, root, ph) && ph.vaddr % PAGE_SIZE == 0
    ensures VA_MIN <= ph.vaddr
  {
    hide Translate;
    RoundUpFacts(ph.memsz);
    assert InSegment(ph, ph.vaddr / PAGE_SIZE);
  }

  /** The first `i` headers have been dealt with. */
  ghost predicate Progress(m0: Mem, m: Mem, root: nat, file: seq<int>, headers: seq<Option<ProgramHeader>>,
                           i: nat, end: nat)
    requires i <= |headers|
  {
    && end == DataEnd(headers[..i]) && end % PAGE_SIZE == 0
    && (forall h :: h in headers[..i] ==> h.Some? && ImageThere(m, root, file, h) && RoomFor(m0, root, file, h))
    && OnlyBelow(m0, m, root, end) && AllProtected(m, root, headers[..i]) && PagesAre(m0, m, root, headers[..i])
    && (forall j :: 0 <= j < i ==> !Refused(file, headers[j]) && !Clashes(m0, root, headers, j))
    && ((exists h :: h in headers[..i] && IsLoad(h)) ==> VA_MIN <= end)
  }

  lemma ProgressStarts(m: Mem, root: nat, file: seq<int>, headers: seq<Option<ProgramHeader>>)
    ensures Progress(m, m, root, file, headers, 0, 0)
  {
    hide Translate, ImageThere, RoomFor, Refused, Clashes, OnlyBelow, AllProtected, PagesAre;
    assert headers[..0] == [];
    ExtendsSelf(m, root);
    OnlyBelowSelf(m, root);
    NoneToProtect(m, root);
    PagesAreSelf(m, root);
  }

  lemma ProgressFacts(m0: Mem, m: Mem, root: nat, file: seq<int>, headers: seq<Option<ProgramHeader>>, i: nat, end: nat)
    requires i <= |headers| && Progress(m0, m, root, file, headers, i, end)
    ensures Extends(m0, m, root) && PagesAre(m0, m, root, headers[..i])
  {
    hide Translate, ImageThere, RoomFor, Refused, Clashes, AllProtected, PagesAre, Extends;
  }

  lemma ProgressSkips(m0: Mem, m: Mem, root: nat, file: seq<int>, headers: seq<Option<ProgramHeader>>, i: nat, end: nat)
    requires i < |headers| && Progress(m0, m, root, file, headers, i, end) && headers[i].Some? && !IsLoad(headers[i])
    ensures Progress(m0, m, root, file, headers, i + 1, end)
  {
    hide Translate, ImageThere, RoomFor, Clashes, AllProtected, PagesAre, OnlyBelow, Malformed;
    assert headers[..i + 1] == headers[..i] + [headers[i]] && headers[..i + 1][..i] == headers[..i];
    NotLoaded(m, root, file, headers[i]);
    NotClashing(m0, root, headers, i);
    ProtectedSkips(m, root, headers[..i], headers[i]);
    PagesAreStep(m0, m, m, root, headers[..i], headers[i]);
  }

  lemma DataEndStep(headers: seq<Option<ProgramHeader>>, h: Option<ProgramHeader>)
    requires IsLoad(h)
    ensures DataEnd(headers + [h]) == if Top(h) > DataEnd(headers) then Top(h) else DataEnd(headers)
  {
    hide RoundUp;
    assert (headers + [h])[..|headers|] == headers;
  }

  lemma WholePages(ph: ProgramHeader)
    requires ph.vaddr % PAGE_SIZE == 0
    ensures (ph.vaddr / PAGE_SIZE + RoundUp(ph.memsz) / PAGE_SIZE) * PAGE_SIZE == ph.vaddr + RoundUp(ph.memsz)
    ensures (ph.vaddr + RoundUp(ph.memsz)) % PAGE_SIZE == 0
  {
    hide RoundUp;
    RoundUpFacts(ph.memsz);
  }

  lemma ProgressLoads(m0: Mem, cur: Mem, m: Mem, root: nat, file: seq<int>, headers: seq<Option<ProgramHeader>>,
                      i: nat, end: nat)
    requires i < |headers| && Sound(cur, root) && Progress(m0, cur, root, file, headers, i, end) && IsLoad(headers[i])
    requires var ph := headers[i].value;
             && !Malformed(file, ph) && !Clash(cur, root, ph) && Extends(cur, m, root)
             && Vacant(cur, root, ph.vaddr, |Image(file, ph)|)
             && Written(cur, m, root, ph.vaddr, Image(file, ph))
             && PagesAdded(cur, m, root, ph.vaddr / PAGE_SIZE, RoundUp(ph.memsz) / PAGE_SIZE)
             && Protected(m, root, ph)
    ensures var top := headers[i].value.vaddr + RoundUp(headers[i].value.memsz);
            Progress(m0, m, root, file, headers, i + 1, if top > end then top else end)
  {
    hide Sound, Written, Vacant, ImageThere, Malformed, Protected, AllProtected, RoomFor, OnlyBelow, PagesAdded;
    hide Translate, Image, RoundUp, Peek, Reads, Extends, Clash, Clashes, PagesAre, DataEnd;
    var ph := headers[i].value;
    assert headers[..i + 1] == headers[..i] + [headers[i]] && headers[..i + 1][..i] == headers[..i];
    AcceptedParts(file, ph);
    WholePages(ph);
    AboveMin(cur, root, ph);
    ClashIsClashes(m0, cur, root, headers, i);
    DataEndStep(headers[..i], headers[i]);
    var top := ph.vaddr + RoundUp(ph.memsz);
    var first, n := ph.vaddr / PAGE_SIZE, RoundUp(ph.memsz) / PAGE_SIZE;
    OnlyBelowStep(m0, cur, m, root, end, first, n, if top > end then top else end);
    ImagesKept(cur, m, root, file, headers[..i], ph.vaddr, Image(file, ph));
    ProtectedAdds(cur, m, root, first, n, headers[..i], headers[i]);
    PagesAreStep(m0, cur, m, root, headers[..i], headers[i]);
    LoadedImage(cur, m, root, file, headers[i]);
    RoomFromStart(m0, cur, root, end, file, headers[i]);
  }

  lemma ProgressDone(m0: Mem, m: Mem, root: nat, file: seq<int>, headers: seq<Option<ProgramHeader>>, end: nat)
    requires Progress(m0, m, root, file, headers, |headers|, end)
    ensures end == DataEnd(headers) && end % PAGE_SIZE == 0
    ensures forall h :: h in headers ==> h.Some? && ImageThere(m, root, file, h) && RoomFor(m0, root, file, h)
    ensures OnlyBelow(m0, m, root, end) && AllProtected(m, root, headers)
    ensures forall i :: 0 <= i < |headers| ==> !Refused(file, headers[i]) && !Clashes(m0, root, headers, i)
    ensures (exists h :: h in headers && IsLoad(h)) ==> VA_MIN <= end
  {
    hide Translate, ImageThere, RoomFor, Refused, Clashes, AllProtected, PagesAre, OnlyBelow;
    assert headers[..|headers|] == headers;
  }

  /** The program header loop of proc_exec; a header that cannot be read is None. */
  method LoadProgram(v: Manager, root: nat, file: seq<int>, headers: seq<Option<ProgramHeader>>)
    returns (r: LoadResult, end: nat)
    requires Sound(v.m, root) && |file| < TWO32
    modifies v
    ensures Sound(v.m, root) && Extends(old(v.m), v.m, root)
    ensures r.Loaded? ==>
              && end == DataEnd(headers) && end % PAGE_SIZE == 0
              && (forall h :: h in headers ==>
                    h.Some? && ImageThere(v.m, root, file, h) && RoomFor(old(v.m), root, file, h))
              && OnlyBelow(old(v.m), v.m, root, end) && AllProtected(v.m, root, headers)
    ensures r.Loaded? ==> forall i :: 0 <= i < |headers| ==>
              !Refused(file, headers[i]) && !Clashes(old(v.m), root, headers, i)
    ensures r.Loaded? && (exists h :: h in headers && IsLoad(h)) ==> VA_MIN <= end
    ensures r.Bad? ==> v.m.free == [] || exists h :: h in headers && Refused(file, h)
    ensures r.LoadPanic? ==> exists i :: 0 <= i < |headers| && Clashes(old(v.m), root, headers, i)
    ensures r.Endless? ==> exists h :: h in headers && IsLoad(h) && LoadSize(h.value) > TWO32 - PAGE_SIZE
  {
    hide Progress, Sound, Written, Vacant, ImageThere, Malformed, Protected, AllProtected, RoomFor, OnlyBelow;
    hide PagesAdded, Translate, Image, RoundUp, Peek, Reads, Extends, Clash, Clashes, PagesAre, LoadSize, DataEnd;
    ghost var m0 := v.m;
    end := 0;
    ProgressStarts(m0, root, file, headers);
    var i := 0;
    while i < |headers|
      invariant 0 <= i <= |headers| && Sound(v.m, root) && Progress(m0, v.m, root, file, headers, i, end)
    {
      ghost var cur := v.m;
      ProgressFacts(m0, cur, root, file, headers, i, end);
      if headers[i] == None {
        assert headers[i] in headers && Refused(file, headers[i]);
        return Bad, end;
      }
      var ph := headers[i].value;
      if ph.type_ != ELF_PROG_LOAD {
        ProgressSkips(m0, cur, root, file, headers, i, end);
        i := i + 1;
        continue;
      }
      ClashIsClashes(m0, cur, root, headers, i);
      r := LoadOne(v, root, file, ph);
      ExtendsTwice(m0, cur, v.m, root);
      if !r.Loaded? {
        assert headers[i] in headers && (r.Bad? ==> v.m.free == [] || Refused(file, headers[i]));
        return;
      }
      ProgressLoads(m0, cur, v.m, root, file, headers, i, end);
      var top := ph.vaddr + RoundUp(ph.memsz);
      if top > end {
        end := top;
      }
      i := i + 1;
    }
    ProgressFacts(m0, v.m, root, file, headers, i, end);
    ProgressDone(m0, v.m, root, file, headers, end);
    return Loaded, end;
  }

  lemma NotClashing(m: Mem, root: nat, headers: seq<Option<ProgramHeader>>, i: nat)
    requires i < |headers| && !IsLoad(headers[i])
    ensures !Clashes(m, root, headers, i)
  {
  }

  lemma AcceptedParts(file: seq<int>, ph: ProgramHeader)
    requires !Malformed(file, ph)
    ensures ph.filesz <= ph.memsz && ph.vaddr % PAGE_SIZE == 0 && InFile(file, ph)
  {
  }

  lemma NotLoaded(m: Mem, root: nat, file: seq<int>, h: Option<ProgramHeader>)
    requires !IsLoad(h)
    ensures ImageThere(m, root, file, h) && forall m' :: RoomFor(m', root, file, h)
  {
  }

  lemma LoadedImage(m: Mem, m': Mem, root: nat, file: seq<int>, h: Option<ProgramHeader>)
    requires IsLoad(h) && h.value.filesz <= h.value.memsz && InFile(file, h.value)
    requires Written(m, m', root, h.value.vaddr, Image(file, h.value))
    ensures ImageThere(m', root, file, h)
  {
    WrittenReads(m, m', root, h.value.vaddr, Image(file, h.value));
  }
}
