/** Directory records: fs_readdir packs them into the caller's buffer, ls unpacks them. */
module Dirents {
  import opened Words

  const SIZEOF_DIRENT: int := 16   // of the struct, padded; the name starts before its end
  const NAME_OFFSET: int := 13
  const DT_DIR: int := 1
  const DT_FILE: int := 2
  const LS_BUFFER: int := 512

  /** What CrowFS tells about one directory entry.  The date is kept as its 64 bits. */
  datatype Entry = Entry(created: nat, size: nat, dir: bool, name: seq<int>)

  /** The entries CrowFS hands out one by one, and whether it then reports an error instead of the
      end of the directory. */
  datatype Directory = Directory(entries: seq<Entry>, broken: bool)

  predicate EntryOk(e: Entry) {
    e.created < Pow256(8) && e.size < Pow256(4) && forall i :: 0 <= i < |e.name| ==> 0 < e.name[i] < 256
  }

  predicate EntriesOk(es: seq<Entry>) {
    forall i :: 0 <= i < |es| ==> EntryOk(es[i])
  }

  // ----- records

  function TypeByte(e: Entry): int {
    if e.dir then DT_DIR else DT_FILE
  }

  function Header(e: Entry): (s: seq<int>)
    ensures |s| == NAME_OFFSET
  {
    LittleEndian(e.created, 8) + LittleEndian(e.size, 4) + [TypeByte(e)]
  }

  function Record(e: Entry): (s: seq<int>)
    ensures |s| == NAME_OFFSET + |e.name| + 1
  {
    Header(e) + e.name + [0]
  }

  function Stride(e: Entry): nat {
    SIZEOF_DIRENT + |e.name|
  }

  /** Where record n starts. */
  function Start(es: seq<Entry>, n: nat): nat
    requires n <= |es|
  {
    if n == 0 then 0 else Start(es, n - 1) + Stride(es[n - 1])
  }

  function Overwrite(b: seq<int>, pos: nat, s: seq<int>): (r: seq<int>)
    requires pos + |s| <= |b|
    ensures |r| == |b|
  {
    b[..pos] + s + b[pos + |s|..]
  }

  /** The buffer after the first n records; the two bytes between records keep what they held. */
  function Packed(b: seq<int>, es: seq<Entry>, n: nat): (r: seq<int>)
    requires n <= |es| && Start(es, n) <= |b|
    ensures |r| == |b|
  {
    if n == 0 then b else Overwrite(Packed(b, es, n - 1), Start(es, n - 1), Record(es[n - 1]))
  }

  lemma {:induction false} StartGrows(es: seq<Entry>, i: nat, n: nat)
    requires i < n <= |es|
    ensures Start(es, i) + Stride(es[i]) <= Start(es, n)
    decreases n
  {
    if i + 1 < n {
      StartGrows(es, i, n - 1);
    }
  }

  lemma OverwriteSlices(b: seq<int>, pos: nat, s: seq<int>, lo: nat, hi: nat)
    requires pos + |s| <= |b| && lo <= hi <= pos
    ensures Overwrite(b, pos, s)[pos..pos + |s|] == s && Overwrite(b, pos, s)[lo..hi] == b[lo..hi]
  {
  }

  /** Later records do not touch earlier ones. */
  lemma {:induction false} RecordSurvives(b: seq<int>, es: seq<Entry>, i: nat, n: nat)
    requires i < n <= |es| && Start(es, n) <= |b|
    ensures Start(es, i) + Stride(es[i]) <= |b|
    ensures Packed(b, es, n)[Start(es, i)..Start(es, i) + |Record(es[i])|] == Record(es[i])
    decreases n
  {
    hide Record, Overwrite;
    StartGrows(es, i, n);
    var at := Start(es, n - 1);
    if i + 1 < n {
      StartGrows(es, i, n - 1);
      RecordSurvives(b, es, i, n - 1);
      OverwriteSlices(Packed(b, es, n - 1), at, Record(es[n - 1]), Start(es, i), Start(es, i) + |Record(es[i])|);
    } else {
      OverwriteSlices(Packed(b, es, n - 1), at, Record(es[n - 1]), 0, 0);
    }
  }

  // ----- how many fit

  /** How many of the entries the packing loop takes for a buffer of this length. */
  function FitCount(es: seq<Entry>, len: int): (n: nat)
    ensures n <= |es|
  {
    if es == [] || Stride(es[0]) >= len then 0 else 1 + FitCount(es[1..], len - Stride(es[0]))
  }

  lemma {:induction false} StartDrop(es: seq<Entry>, n: nat)
    requires 0 < n <= |es|
    ensures Start(es, n) == Stride(es[0]) + Start(es[1..], n - 1)
  {
    if n > 1 {
      StartDrop(es, n - 1);
      assert es[1..][n - 2] == es[n - 1];
    }
  }

  /** FitCount is the greatest number of leading records that end before the buffer does. */
  lemma {:induction false} FitCountIff(es: seq<Entry>, len: int, n: nat)
    requires n <= |es|
    ensures n == FitCount(es, len) <==> (n == 0 || Start(es, n) < len) && (n == |es| || Start(es, n + 1) >= len)
    decreases n
  {
    if n < |es| {
      StartDrop(es, n + 1);
    }
    if n > 0 {
      StartDrop(es, n);
      FitCountIff(es[1..], len - Stride(es[0]), n - 1);
    }
  }

  // ----- the writer

  method Store(buf: array<int>, pos: nat, bytes: seq<int>)
    requires pos + |bytes| <= buf.Length
    modifies buf
    ensures buf[..] == Overwrite(old(buf[..]), pos, bytes)
  {
    var i := 0;
    while i < |bytes|
      invariant 0 <= i <= |bytes|
      invariant forall j :: 0 <= j < buf.Length ==> buf[j] == if pos <= j < pos + i then bytes[j - pos] else old(buf[j])
    {
      buf[pos + i] := bytes[i];
      i := i + 1;
    }
  }

  lemma OverwriteAfter(b: seq<int>, pos: nat, s: seq<int>, t: seq<int>)
    requires pos + |s| + |t| <= |b|
    ensures Overwrite(Overwrite(b, pos, s), pos + |s|, t) == Overwrite(b, pos, s + t)
  {
  }

  lemma OverwriteBefore(b: seq<int>, pos: nat, s: seq<int>, t: seq<int>)
    requires pos + |s| + |t| <= |b|
    ensures Overwrite(Overwrite(b, pos + |s|, t), pos, s) == Overwrite(b, pos, s + t)
  {
  }

  lemma OverwriteFields(b: seq<int>, pos: nat, e: Entry)
    requires pos + |Record(e)| <= |b|
    ensures Overwrite(Overwrite(Overwrite(Overwrite(b, pos + 12, [TypeByte(e)]), pos, LittleEndian(e.created, 8)),
                                pos + 8, LittleEndian(e.size, 4)), pos + NAME_OFFSET, e.name + [0])
            == Overwrite(b, pos, Record(e))
  {
    hide LittleEndian, Overwrite;
    var created, size, t := LittleEndian(e.created, 8), LittleEndian(e.size, 4), [TypeByte(e)];
    OverwriteAfter(Overwrite(b, pos + 12, t), pos, created, size);
    OverwriteBefore(b, pos, created + size, t);
    OverwriteAfter(b, pos, Header(e), e.name + [0]);
    assert Record(e) == Header(e) + (e.name + [0]);
  }

  /** Fills in one dirent, field by field and then the name. */
  method WriteRecord(buf: array<int>, pos: nat, e: Entry)
    requires pos + |Record(e)| <= buf.Length
    modifies buf
    ensures buf[..] == Overwrite(old(buf[..]), pos, Record(e))
  {
    hide LittleEndian, Overwrite;
    Store(buf, pos + 12, [TypeByte(e)]);
    Store(buf, pos, LittleEndian(e.created, 8));
    Store(buf, pos + 8, LittleEndian(e.size, 4));
    Store(buf, pos + NAME_OFFSET, e.name + [0]);
    OverwriteFields(old(buf[..]), pos, e);
  }

  /** What is left to list at an offset. */
  function Rest(d: Directory, offset: nat): seq<Entry> {
    if offset <= |d.entries| then d.entries[offset..] else []
  }

  /** fs_readdir's answer: as many records as fit, unless CrowFS fails first. */
  function Answer(d: Directory, offset: nat, len: nat): int {
    var n := FitCount(Rest(d, offset), len);
    if d.broken && n == |Rest(d, offset)| then -2 else n
  }

  method FsReaddir(isDirectory: bool, d: Directory, buf: array<int>, offset: nat) returns (n: int)
    modifies buf
    ensures !isDirectory ==> n == -1 && buf[..] == old(buf[..])
    ensures isDirectory ==> n == Answer(d, offset, buf.Length)
    ensures isDirectory ==>
      var k := FitCount(Rest(d, offset), buf.Length);
      && Start(Rest(d, offset), k) <= buf.Length
      && buf[..] == Packed(old(buf[..]), Rest(d, offset), k)
  {
    if !isDirectory {
      return -1;
    }
    ghost var es := Rest(d, offset);
    n := 0;
    var pos, len := 0, buf.Length;
    while true
      invariant 0 <= n <= |es| && pos == Start(es, n) <= buf.Length && len == buf.Length - pos
      invariant n == 0 || pos < buf.Length
      invariant buf[..] == Packed(old(buf[..]), es, n)
      decreases |es| - n
    {
      if offset + n >= |d.entries| {
        FitCountIff(es, buf.Length, n);
        return if d.broken then -2 else n;
      }
      var e := d.entries[offset + n];
      if Stride(e) >= len {
        FitCountIff(es, buf.Length, n);
        break;
      }
      WriteRecord(buf, pos, e);
      n := n + 1;
      len := len - Stride(e);
      pos := pos + Stride(e);
    }
  }

  /** The file offset counts entries and moves only when some were read. */
  method SysReaddir(isDirectory: bool, d: Directory, buf: array<int>, offset: nat) returns (n: int, next: nat)
    modifies buf
    ensures isDirectory ==> n == Answer(d, offset, buf.Length)
    ensures !isDirectory ==> n == -1
    ensures next == if n > 0 then offset + n else offset
    ensures n > 0 ==>
      && offset + n <= |d.entries| && Start(Rest(d, offset), n) <= buf.Length
      && buf[..] == Packed(old(buf[..]), Rest(d, offset), n)
  {
    n := FsReaddir(isDirectory, d, buf, offset);
    next := if n <= 0 then offset else offset + n;
  }

  // ----- the reader

  datatype Line = Line(kind: char, size: int, created: int, name: seq<int>)

  function Show(e: Entry): Line {
    Line(if e.dir then 'D' else 'F', e.size, e.created, e.name)
  }

  function ShowAll(es: seq<Entry>): (ls: seq<Line>)
    ensures |ls| == |es| && forall i :: 0 <= i < |es| ==> ls[i] == Show(es[i])
  {
    seq(|es|, i requires 0 <= i < |es| => Show(es[i]))
  }

  function FormatDirentType(t: int): char {
    if t == DT_DIR then 'D' else if t == DT_FILE then 'F' else 'X'
  }

  /** The record at a position starts with this entry's bytes. */
  predicate At(b: seq<int>, pos: nat, e: Entry) {
    pos + |Record(e)| <= |b| && b[pos..pos + |Record(e)|] == Record(e)
  }

  lemma SubSlice(b: seq<int>, lo: nat, hi: nat, i: nat, j: nat)
    requires lo <= hi <= |b| && i <= j <= hi - lo
    ensures b[lo..hi][i..j] == b[lo + i..lo + j]
  {
    forall k | 0 <= k < j - i ensures b[lo..hi][i..j][k] == b[lo + i..lo + j][k] {
      assert b[lo..hi][i + k] == b[lo + (i + k)];
    }
  }

  lemma RecordParts(e: Entry)
    ensures Record(e)[..8] == LittleEndian(e.created, 8) && Record(e)[8..12] == LittleEndian(e.size, 4) &&
        Record(e)[12] == TypeByte(e)
    ensures Record(e)[NAME_OFFSET..NAME_OFFSET + |e.name|] == e.name && Record(e)[NAME_OFFSET + |e.name|] == 0
  {
    hide LittleEndian;
  }

  lemma AtFields(b: seq<int>, pos: nat, e: Entry)
    requires At(b, pos, e) && EntryOk(e)
    ensures FromLittleEndian(b[pos..pos + 8]) == e.created && FromLittleEndian(b[pos + 8..pos + 12]) == e.size
    ensures b[pos + 12] == TypeByte(e)
    ensures b[pos + NAME_OFFSET..pos + NAME_OFFSET + |e.name|] == e.name && b[pos + NAME_OFFSET + |e.name|] == 0
    ensures forall j :: pos + NAME_OFFSET <= j < pos + NAME_OFFSET + |e.name| ==> b[j] != 0
  {
    hide LittleEndian, FromLittleEndian, Pow256, Record;
    var r := Record(e);
    RecordParts(e);
    SubSlice(b, pos, pos + |r|, 0, 8);
    SubSlice(b, pos, pos + |r|, 8, 12);
    SubSlice(b, pos, pos + |r|, NAME_OFFSET, NAME_OFFSET + |e.name|);
    assert r[..8] == r[0..8];
    assert b[pos + 12] == b[pos..pos + |r|][12];
    assert b[pos + NAME_OFFSET + |e.name|] == b[pos..pos + |r|][NAME_OFFSET + |e.name|];
    forall j | pos + NAME_OFFSET <= j < pos + NAME_OFFSET + |e.name| ensures b[j] != 0 {
      var start := pos + NAME_OFFSET;
      assert b[j] == b[start..start + |e.name|][j - start] == e.name[j - start];
    }
    WordRoundTrip(e.created, 8);
    WordRoundTrip(e.size, 4);
  }

  /** strlen: counts to the first zero byte. */
  method StrLen(buf: array<int>, pos: nat, ghost n: nat) returns (r: nat)
    requires pos + n < buf.Length && buf[pos + n] == 0 && forall j :: pos <= j < pos + n ==> buf[j] != 0
    ensures r == n
  {
    r := 0;
    while buf[pos + r] != 0
      invariant 0 <= r <= n
      decreases n - r
    {
      r := r + 1;
    }
  }

  /** The line for the record at `pos`, and how far the next one is. */
  method ReadRecord(buf: array<int>, pos: nat, ghost e: Entry) returns (line: Line, stride: nat)
    requires At(buf[..], pos, e) && EntryOk(e)
    ensures line == Show(e) && stride == Stride(e)
  {
    hide LittleEndian, FromLittleEndian, Pow256, Record;
    AtFields(buf[..], pos, e);
    var length := StrLen(buf, pos + NAME_OFFSET, |e.name|);
    assert buf[..][pos..pos + 8] == buf[pos..pos + 8];
    assert buf[..][pos + 8..pos + 12] == buf[pos + 8..pos + 12];
    line := Line(FormatDirentType(buf[pos + 12]), FromLittleEndian(buf[pos + 8..pos + 12]),
        FromLittleEndian(buf[pos..pos + 8]),
                 buf[pos + NAME_OFFSET..pos + NAME_OFFSET + length]);
    stride := SIZEOF_DIRENT + length;
  }

  /** One buffer of records, read back as exactly the entries that were packed into it. */
  method PrintRecords(buf: array<int>, n: nat, ghost was: seq<int>, ghost es: seq<Entry>) returns (out: seq<Line>)
    requires n <= |es| && EntriesOk(es) && |was| == buf.Length && Start(es, n) <= |was| && buf[..] == Packed(was, es, n)
    ensures out == ShowAll(es[..n])
  {
    out := [];
    var pos, i := 0, 0;
    while i < n
      invariant 0 <= i <= n && pos == Start(es, i) && out == ShowAll(es[..i])
    {
      RecordSurvives(was, es, i, n);
      var line, stride := ReadRecord(buf, pos, es[i]);
      out := out + [line];
      pos := pos + stride;
      i := i + 1;
    }
  }

  // ----- the whole listing

  /** How many entries repeated calls with an ls-sized buffer deliver. */
  function Listed(d: Directory, offset: nat): (n: nat)
    requires offset <= |d.entries|
    ensures offset + n <= |d.entries|
    decreases |d.entries| - offset
  {
    var n := Answer(d, offset, LS_BUFFER);
    if n <= 0 then 0 else n + Listed(d, offset + n)
  }

  method Ls(isDirectory: bool, d: Directory) returns (out: seq<Line>)
    requires EntriesOk(d.entries)
    ensures out == ShowAll(if isDirectory then d.entries[..Listed(d, 0)] else [])
  {
    hide FitCount, Packed, Start, Answer, Record;
    var buf := new int[LS_BUFFER];
    out := [];
    var offset := 0;
    while true
      invariant fresh(buf) && buf.Length == LS_BUFFER && 0 <= offset <= |d.entries| &&
          out == ShowAll(d.entries[..offset])
      invariant isDirectory ==> Listed(d, 0) == offset + Listed(d, offset)
      invariant !isDirectory ==> offset == 0
      decreases |d.entries| - offset
    {
      ghost var was := buf[..];
      var n, next := SysReaddir(isDirectory, d, buf, offset);
      if n <= 0 {
        break;
      }
      var lines := PrintRecords(buf, n, was, Rest(d, offset));
      assert d.entries[..offset] + Rest(d, offset)[..n] == d.entries[..next];
      out := out + lines;
      offset := next;
    }
  }

  predicate RecordFits(e: Entry) {
    Stride(e) < LS_BUFFER
  }

  /** One call delivers only entries that fit, and none exactly at the end or before one that does
      not fit. */
  lemma BatchFits(d: Directory, offset: nat)
    requires offset <= |d.entries| && !d.broken
    ensures var n := Answer(d, offset, LS_BUFFER);
      && 0 <= n <= |d.entries| - offset
      && (forall i :: offset <= i < offset + n ==> RecordFits(d.entries[i]))
      && (n == 0 && offset < |d.entries| ==> !RecordFits(d.entries[offset]))
  {
    hide FitCount;
    var es := Rest(d, offset);
    var n := FitCount(es, LS_BUFFER);
    FitCountIff(es, LS_BUFFER, n);
    forall i | offset <= i < offset + n ensures RecordFits(d.entries[i]) {
      StartGrows(es, i - offset, n);
    }
    if n == 0 && offset < |d.entries| {
      assert Start(es, 1) == Start(es, 0) + Stride(es[0]);
    }
  }

  /** Without an error, the listing stops exactly at the first entry whose record cannot fit. */
  lemma {:induction false} ListsUntilTooLong(d: Directory, offset: nat)
    requires offset <= |d.entries| && !d.broken
    ensures forall i :: offset <= i < offset + Listed(d, offset) ==> RecordFits(d.entries[i])
    ensures var stop := offset + Listed(d, offset); stop < |d.entries| ==> !RecordFits(d.entries[stop])
    decreases |d.entries| - offset
  {
    hide Answer, RecordFits;
    BatchFits(d, offset);
    var n := Answer(d, offset, LS_BUFFER);
    if n > 0 {
      ListsUntilTooLong(d, offset + n);
    }
  }

  lemma BrokenBatch(d: Directory, offset: nat)
    requires offset < |d.entries| && d.broken
    ensures offset + Answer(d, offset, LS_BUFFER) < |d.entries|
  {
    hide FitCount;
  }

  /** A broken directory loses its last batch. */
  lemma {:induction false} BrokenLosesEntries(d: Directory, offset: nat)
    requires offset < |d.entries| && d.broken
    ensures offset + Listed(d, offset) < |d.entries|
    decreases |d.entries| - offset
  {
    hide Answer;
    BrokenBatch(d, offset);
    var n := Answer(d, offset, LS_BUFFER);
    if n > 0 {
      BrokenLosesEntries(d, offset + n);
    }
  }

  /** ls shows every entry once and in order exactly when every record fits its buffer and CrowFS
      reports no error. */
  lemma ListsEverythingIff(d: Directory)
    ensures Listed(d, 0) == |d.entries| <==> d.entries == [] || (!d.broken && forall i :: 0 <= i < |d.entries| ==>
        RecordFits(d.entries[i]))
  {
    if d.entries != [] {
      if d.broken {
        BrokenLosesEntries(d, 0);
      } else {
        ListsUntilTooLong(d, 0);
      }
    }
  }
}
