/** Inode records on the sector disk. */
module Inodes {
  import opened Ide
  import Layout

  const INODE_SIZE := Layout.INODE_SIZE

  type Word = w: int | 0 <= w < 0x1_0000_0000

  /** struct inode; `write_deny` is a C `bool`, which is an int, and the tag is two pointers. */
  datatype Inode = Inode(no: Word, size: Word, openCnts: Word, writeDeny: Word, sectors: seq<Word>,
                         tagPrev: Word, tagNext: Word)

  predicate WellFormed(i: Inode) {
    |i.sectors| == 13
  }

  // ----- the 76 bytes of a record, little endian -----

  function WordBytes(w: Word): (b: seq<Byte>)
    ensures |b| == 4
  {
    [w % 256, w / 256 % 256, w / 256 / 256 % 256, w / 256 / 256 / 256]
  }

  function WordOf(b: seq<Byte>): Word
    requires |b| == 4
  {
    (b[0] as int) + 256 * ((b[1] as int) + 256 * ((b[2] as int) + 256 * (b[3] as int)))
  }

  lemma WordRoundTrip(w: Word)
    ensures WordOf(WordBytes(w)) == w
  {
  }

  function WordsBytes(ws: seq<Word>): (b: seq<Byte>)
    ensures |b| == 4 * |ws|
  {
    if ws == [] then [] else WordBytes(ws[0]) + WordsBytes(ws[1..])
  }

  function WordsOf(b: seq<Byte>): (ws: seq<Word>)
    requires |b| % 4 == 0
    ensures 4 * |ws| == |b|
  {
    if b == [] then [] else [WordOf(b[..4])] + WordsOf(b[4..])
  }

  lemma {:induction false} WordsRoundTrip(ws: seq<Word>)
    ensures WordsOf(WordsBytes(ws)) == ws
  {
    if ws != [] {
      WordRoundTrip(ws[0]);
      WordsRoundTrip(ws[1..]);
      assert WordsBytes(ws)[..4] == WordBytes(ws[0]);
      assert WordsBytes(ws)[4..] == WordsBytes(ws[1..]);
    }
  }

  function WordsIn(i: Inode): seq<Word> {
    [i.no, i.size, i.openCnts, i.writeDeny] + i.sectors + [i.tagPrev, i.tagNext]
  }

  function Encode(i: Inode): (b: seq<Byte>)
    requires WellFormed(i)
    ensures |b| == INODE_SIZE
  {
    WordsBytes(WordsIn(i))
  }

  function Decode(b: seq<Byte>): (i: Inode)
    requires |b| == INODE_SIZE
    ensures WellFormed(i)
  {
    var w := WordsOf(b);
    Inode(w[0], w[1], w[2], w[3], w[4..17], w[17], w[18])
  }

  // ----- which byte is which -----

  /** The 32-bit number at byte `at` of a record or of a disk, lowest byte first. */
  function WordAt(b: seq<Byte>, at: nat): Word
    requires at + 4 <= |b|
  {
    (b[at] as int) + 0x100 * (b[at + 1] as int) + 0x1_0000 * (b[at + 2] as int) + 0x100_0000 * (b[at + 3] as int)
  }

  lemma {:induction false} WordsAt(ws: seq<Word>, j: nat)
    requires j < |ws|
    ensures WordAt(WordsBytes(ws), 4 * j) == ws[j]
    decreases j
  {
    var b := WordsBytes(ws);
    if j == 0 {
      FirstWord(ws);
    } else {
      WordsAt(ws[1..], j - 1);
      assert b == WordBytes(ws[0]) + WordsBytes(ws[1..]);
      WordAfter(WordBytes(ws[0]), WordsBytes(ws[1..]), 4 * (j - 1));
    }
  }

  lemma FirstWord(ws: seq<Word>)
    requires ws != []
    ensures WordAt(WordsBytes(ws), 0) == ws[0]
  {
    var b, w := WordsBytes(ws), WordBytes(ws[0]);
    assert b == w + WordsBytes(ws[1..]);
    WordRoundTrip(ws[0]);
    assert forall k :: 0 <= k < 4 ==> b[k] == w[k];
    assert WordAt(w, 0) == WordOf(w);
  }

  lemma WordAfter(a: seq<Byte>, b: seq<Byte>, at: nat)
    requires |a| == 4 && at + 4 <= |b|
    ensures WordAt(a + b, at + 4) == WordAt(b, at)
  {
    var c := a + b;
    assert c[at + 4] == b[at] && c[at + 5] == b[at + 1] && c[at + 6] == b[at + 2] && c[at + 7] == b[at + 3];
  }

  /** The record i at byte `at`, as the compiler lays out struct inode (fs/inode.h). */
  ghost predicate Holds(b: seq<Byte>, at: nat, i: Inode)
    requires at + INODE_SIZE <= |b| && WellFormed(i)
  {
    && WordAt(b, at) == i.no
    && WordAt(b, at + 4) == i.size
    && WordAt(b, at + 8) == i.openCnts
    && WordAt(b, at + 12) == i.writeDeny
    && (forall j {:trigger i.sectors[j]} :: 0 <= j < 13 ==> WordAt(b, at + 16 + 4 * j) == i.sectors[j])
    && WordAt(b, at + 68) == i.tagPrev
    && WordAt(b, at + 72) == i.tagNext
  }

  /** The encoded bytes are those of the struct. */
  lemma EncodeLayout(i: Inode)
    requires WellFormed(i)
    ensures Holds(Encode(i), 0, i)
  {
    var ws := WordsIn(i);
    hide WordAt, WordsBytes;
    forall j | 0 <= j < 19 ensures WordAt(Encode(i), 4 * j) == ws[j] {
      WordsAt(ws, j);
    }
    forall j | 0 <= j < 13 ensures WordAt(Encode(i), 16 + 4 * j) == i.sectors[j] {
      assert ws[4 + j] == i.sectors[j] && 4 * (4 + j) == 16 + 4 * j;
    }
    assert WordAt(Encode(i), 4 * 0) == ws[0] && WordAt(Encode(i), 4 * 1) == ws[1];
    assert WordAt(Encode(i), 4 * 2) == ws[2] && WordAt(Encode(i), 4 * 3) == ws[3];
    assert WordAt(Encode(i), 4 * 17) == ws[17] && WordAt(Encode(i), 4 * 18) == ws[18];
  }

  lemma {:induction false} WordsOfAt(b: seq<Byte>, j: nat)
    requires |b| % 4 == 0 && 4 * j < |b|
    ensures WordsOf(b)[j] == WordAt(b, 4 * j)
    decreases j
  {
    if j > 0 {
      WordsOfAt(b[4..], j - 1);
      assert b == b[..4] + b[4..];
      WordAfter(b[..4], b[4..], 4 * (j - 1));
    }
  }

  /** And so are those that a record is read from. */
  lemma DecodeLayout(b: seq<Byte>)
    requires |b| == INODE_SIZE
    ensures Holds(b, 0, Decode(b))
  {
    hide WordAt;
    var w, i := WordsOf(b), Decode(b);
    forall j | 0 <= j < 19 ensures w[j] == WordAt(b, 4 * j) {
      WordsOfAt(b, j);
    }
    forall j | 0 <= j < 13 ensures WordAt(b, 16 + 4 * j) == i.sectors[j] {
      assert w[4 + j] == i.sectors[j] && 4 * (4 + j) == 16 + 4 * j;
    }
    assert WordAt(b, 4 * 0) == w[0] && WordAt(b, 4 * 1) == w[1] && WordAt(b, 4 * 2) == w[2];
    assert WordAt(b, 4 * 3) == w[3] && WordAt(b, 4 * 17) == w[17] && WordAt(b, 4 * 18) == w[18];
  }

  /** A record of a disk holds what its bytes hold. */
  lemma RecordHolds(d: Image, at: nat, i: Inode)
    requires at + INODE_SIZE <= |d| && WellFormed(i) && Holds(Record(d, at), 0, i)
    ensures Holds(d, at, i)
  {
    var b := Record(d, at);
    forall k | 0 <= k <= INODE_SIZE - 4 ensures WordAt(d, at + k) == WordAt(b, k) {
      SameWord(d, at, k);
    }
    hide WordAt, Record;
    assert WordAt(d, at + 0) == WordAt(b, 0);
    forall j | 0 <= j < 13 ensures WordAt(d, at + 16 + 4 * j) == i.sectors[j] {
      assert at + 16 + 4 * j == at + (16 + 4 * j);
      assert WordAt(d, at + (16 + 4 * j)) == WordAt(b, 16 + 4 * j) == WordAt(b, 0 + 16 + 4 * j);
    }
    assert WordAt(b, 0 + 4) == i.size;
  }

  lemma SameWord(d: Image, at: nat, k: nat)
    requires at + INODE_SIZE <= |d| && k <= INODE_SIZE - 4
    ensures WordAt(d, at + k) == WordAt(Record(d, at), k)
  {
  }

  lemma RecordRoundTrip(i: Inode)
    requires WellFormed(i)
    ensures Decode(Encode(i)) == i
  {
    WordsRoundTrip(WordsIn(i));
  }

  // ----- where records lie -----

  datatype Position = Position(twoSec: bool, secLba: nat, offSize: nat)

  function InodeLocate(inodeTableLba: nat, no: nat): Position {
    var inodeSumSize := no * INODE_SIZE;
    var leftInodeSize := inodeSumSize % 512;
    Position(!(512 - leftInodeSize > INODE_SIZE), inodeTableLba + inodeSumSize / 512, leftInodeSize)
  }

  /** The sectors that are read and written for a record. */
  function SectorsRead(p: Position): nat {
    if p.twoSec then 2 else 1
  }

  /** The byte of the disk at which record no starts. */
  function RecordAt(inodeTableLba: nat, no: nat): nat {
    SECTOR_SIZE * inodeTableLba + INODE_SIZE * no
  }

  /** The position names the byte where the record starts, the sectors read contain all of it, and the
      4096 records of a partition fill the inode table exactly. */
  lemma Located(inodeTableLba: nat, no: nat)
    ensures var p := InodeLocate(inodeTableLba, no);
      && SECTOR_SIZE * p.secLba + p.offSize == RecordAt(inodeTableLba, no)
      && p.offSize + INODE_SIZE <= SECTOR_SIZE * SectorsRead(p)
      && (p.twoSec <==> p.offSize + INODE_SIZE >= SECTOR_SIZE)
    ensures no < Layout.MAX_FILES_PER_PART ==>
              RecordAt(inodeTableLba, no) + INODE_SIZE <= SECTOR_SIZE * (inodeTableLba + 608)
    ensures RecordAt(inodeTableLba, 0) == 512 * inodeTableLba
    ensures RecordAt(inodeTableLba, no + 1) == RecordAt(inodeTableLba, no) + 76
  {
  }

  /** The last record ends with its sector, so two sectors are read for it, the second of them behind
      the inode table. */
  lemma LastRecordReadsOn(inodeTableLba: nat)
    ensures var p := InodeLocate(inodeTableLba, 4095);
            p.twoSec && p.offSize + INODE_SIZE == SECTOR_SIZE && p.secLba + 2 == inodeTableLba + 609
  {
  }

  function Record(d: Image, at: nat): (b: seq<Byte>)
    requires at + INODE_SIZE <= |d|
    ensures |b| == INODE_SIZE
    ensures forall i :: 0 <= i < INODE_SIZE ==> b[i] == d[at + i]
  {
    d[at..at + INODE_SIZE]
  }

  /** d with the bytes at `at` replaced, and no other byte. */
  function Patched(d: Image, at: nat, b: seq<Byte>): (r: Image)
    requires at + |b| <= |d|
    ensures |r| == |d|
    ensures forall i :: 0 <= i < |d| ==> r[i] == if at <= i < at + |b| then b[i - at] else d[i]
  {
    d[..at] + b + d[at + |b|..]
  }

  /** What inode_sync stores: the fields that only make sense in memory are cleared. */
  function Pure(i: Inode): Inode {
    i.(openCnts := 0, writeDeny := 0, tagPrev := 0, tagNext := 0)
  }

  /** A record patched in the buffer of whole sectors, written back, is a record patched on the disk. */
  lemma PatchThroughSectors(d: Image, lba: nat, n: nat, off: nat, b: seq<Byte>)
    requires SECTOR_SIZE * (lba + n) <= |d| && off + |b| <= SECTOR_SIZE * n
    ensures Written(d, lba, Patched(Sectors(d, lba, n), off, b)) == Patched(d, SECTOR_SIZE * lba + off, b)
  {
  }

  lemma RecordThroughSectors(d: Image, lba: nat, n: nat, off: nat)
    requires SECTOR_SIZE * (lba + n) <= |d| && off + INODE_SIZE <= SECTOR_SIZE * n
    ensures Sectors(d, lba, n)[off..off + INODE_SIZE] == Record(d, SECTOR_SIZE * lba + off)
  {
    var sectors := Sectors(d, lba, n);
    assert forall i :: 0 <= i < |sectors| ==> sectors[i] == d[SECTOR_SIZE * lba + i];
  }

  /** Another record keeps its bytes. */
  lemma OtherRecord(d: Image, inodeTableLba: nat, no: nat, other: nat, b: seq<Byte>)
    requires |b| == INODE_SIZE && other != no
    requires RecordAt(inodeTableLba, no) + INODE_SIZE <= |d| && RecordAt(inodeTableLba, other) + INODE_SIZE <= |d|
    ensures Record(Patched(d, RecordAt(inodeTableLba, no), b), RecordAt(inodeTableLba, other))
         == Record(d, RecordAt(inodeTableLba, other))
  {
    var at, from := RecordAt(inodeTableLba, no), RecordAt(inodeTableLba, other);
    assert from + INODE_SIZE <= at || at + INODE_SIZE <= from;
    hide RecordAt;
    var was, now := Record(d, from), Record(Patched(d, at, b), from);
    forall i | 0 <= i < INODE_SIZE ensures now[i] == was[i] {
      assert now[i] == Patched(d, at, b)[from + i];
    }
  }

  lemma PatchedRecord(d: Image, at: nat, b: seq<Byte>)
    requires |b| == INODE_SIZE && at + INODE_SIZE <= |d|
    ensures Record(Patched(d, at, b), at) == b
  {
  }

  /** inode_sync then an uncached inode_open: number, size and sectors come back. */
  lemma SyncOpenRoundTrip(d: Image, inodeTableLba: nat, i: Inode)
    requires WellFormed(i) && RecordAt(inodeTableLba, i.no) + INODE_SIZE <= |d|
    ensures var at := RecordAt(inodeTableLba, i.no);
            var back := Decode(Record(Patched(d, at, Encode(Pure(i))), at));
            && back.no == i.no && back.size == i.size && back.sectors == i.sectors
            && back.writeDeny == 0 && back.openCnts == 0 && back.tagPrev == 0 && back.tagNext == 0
  {
    var at := RecordAt(inodeTableLba, i.no);
    PatchedRecord(d, at, Encode(Pure(i)));
    RecordRoundTrip(Pure(i));
  }
}
