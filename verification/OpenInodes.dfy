/** The inodes of a partition that are open, over every sequence of opens and closes. */
module OpenInodes {
  import opened Ide
  import opened Inodes
  import opened IntrusiveLists
  import Layout

  /** One element of open_inodes: the address of the inode in memory, its i_no and its i_open_cnts. */
  datatype Entry<H> = Entry(handle: H, no: Word, count: Word)

  const MAX_WORD := 0xffff_ffff

  function Increment(c: Word): Word {
    if c == MAX_WORD then 0 else c + 1
  }

  function Decrement(c: Word): Word {
    if c == 0 then MAX_WORD else c - 1
  }

  // ----- what the list becomes -----

  /** The first entry for a number, |c| if there is none. */
  function IndexOf<H>(c: seq<Entry<H>>, no: Word): (k: nat)
    ensures k <= |c|
    ensures k < |c| ==> c[k].no == no
    ensures forall i :: 0 <= i < k ==> c[i].no != no
  {
    if c == [] then 0 else if c[0].no == no then 0 else 1 + IndexOf(c[1..], no)
  }

  function HandleIndex<H(==)>(c: seq<Entry<H>>, h: H): (k: nat)
    ensures k <= |c|
    ensures k < |c| ==> c[k].handle == h
    ensures forall i :: 0 <= i < k ==> c[i].handle != h
  {
    if c == [] then 0 else if c[0].handle == h then 0 else 1 + HandleIndex(c[1..], h)
  }

  /** inode_open: `made` is what sys_malloc would return, and `recordNo` the i_no of the record on disk. */
  function Opened<H>(c: seq<Entry<H>>, no: Word, made: H, recordNo: Word): seq<Entry<H>> {
    var k := IndexOf(c, no);
    if k < |c| then c[k := c[k].(count := Increment(c[k].count))] else c + [Entry(made, recordNo, 1)]
  }

  function OpenedHandle<H>(c: seq<Entry<H>>, no: Word, made: H): H {
    var k := IndexOf(c, no);
    if k < |c| then c[k].handle else made
  }

  /** inode_close of entry k. */
  function Closed<H>(c: seq<Entry<H>>, k: nat): seq<Entry<H>>
    requires k < |c|
  {
    if Decrement(c[k].count) == 0 then Removed(c, k) else c[k := c[k].(count := Decrement(c[k].count))]
  }

  // ----- runs -----

  datatype Op<H> = Open(no: Word, made: H) | Close(handle: H)

  function Step<H(==)>(c: seq<Entry<H>>, op: Op<H>): seq<Entry<H>> {
    match op
    case Open(no, made) => Opened(c, no, made, no)
    case Close(h) => if HandleIndex(c, h) < |c| then Closed(c, HandleIndex(c, h)) else c
  }

  /** The list after a run that starts with nothing open; every record on disk carries its own number. */
  function After<H(==)>(ops: seq<Op<H>>): seq<Entry<H>> {
    if ops == [] then [] else Step(After(ops[..|ops| - 1]), ops[|ops| - 1])
  }

  /** The number that an operation is about. */
  function NumberOf<H(==)>(c: seq<Entry<H>>, op: Op<H>): int {
    match op
    case Open(no, _) => no
    case Close(h) => if HandleIndex(c, h) < |c| then c[HandleIndex(c, h)].no else -1
  }

  /** Opens minus closes of a number. */
  function Balance<H(==)>(ops: seq<Op<H>>, no: Word): int {
    if ops == [] then 0 else
    var before, op := ops[..|ops| - 1], ops[|ops| - 1];
    Balance(before, no) + (if NumberOf(After(before), op) != no then 0 else if op.Open? then 1 else -1)
  }

  /** What the callers and sys_malloc owe: the memory made for an inode is not in use by another open
      inode, only open inodes are closed, and no number is open 2^32 - 1 times when it is opened again. */
  predicate Proper<H(==)>(ops: seq<Op<H>>) {
    ops != [] ==>
      var before, op := ops[..|ops| - 1], ops[|ops| - 1];
      && Proper(before)
      && match op
         case Open(no, made) => HandleIndex(After(before), made) == |After(before)| && Balance(before, no) < MAX_WORD
         case Close(h) => HandleIndex(After(before), h) < |After(before)|
  }

  ghost predicate OneEach<H>(c: seq<Entry<H>>) {
    forall i, j :: 0 <= i < j < |c| ==> c[i].no != c[j].no && c[i].handle != c[j].handle
  }

  /** Every entry counts the opens not yet closed of its number, of which there is at least one; a number
      without an entry has none. */
  ghost predicate Counts<H>(c: seq<Entry<H>>, ops: seq<Op<H>>) {
    && (forall i :: 0 <= i < |c| ==> c[i].count == Balance(ops, c[i].no) && c[i].count > 0)
    && (forall no: Word :: IndexOf(c, no) == |c| ==> Balance(ops, no) == 0)
  }

  lemma IndexIs<H>(c: seq<Entry<H>>, k: nat)
    requires OneEach(c) && k < |c|
    ensures IndexOf(c, c[k].no) == k && HandleIndex(c, c[k].handle) == k
  {
  }

  lemma OthersElsewhere<H>(c: seq<Entry<H>>, k: nat)
    requires OneEach(c) && k < |c|
    ensures forall i :: 0 <= i < |c| && i != k ==> c[i].handle != c[k].handle
  {
  }

  lemma Unroll<H>(before: seq<Op<H>>, op: Op<H>)
    ensures var ops := before + [op];
      && After(ops) == Step(After(before), op)
      && (Proper(ops) ==> Proper(before))
      && forall m: Word {:trigger Balance(ops, m)} ::
           Balance(ops, m) == Balance(before, m) + (if NumberOf(After(before), op) != m then 0 else if op.Open? then 1 else -1)
  {
    var ops := before + [op];
    assert ops[..|ops| - 1] == before && ops[|ops| - 1] == op;
  }

  lemma OpenKeeps<H>(before: seq<Op<H>>, no: Word, made: H)
    requires Proper(before + [Open(no, made)]) && OneEach(After(before)) && Counts(After(before), before)
    ensures var ops := before + [Open(no, made)]; OneEach(After(ops)) && Counts(After(ops), ops)
  {
    var op := Open(no, made);
    var ops := before + [op];
    assert ops[..|ops| - 1] == before && ops[|ops| - 1] == op;
    Unroll(before, op);
    var c, d := After(before), After(ops);
    var k := IndexOf(c, no);
    assert d == Opened(c, no, made, no);
    assert HandleIndex(c, made) == |c| && Balance(before, no) < MAX_WORD;
    hide After, Balance, Proper;
    if k < |c| {
      OpenOld(c, d, k, before, ops);
    } else {
      OpenNew(c, d, no, made, before, ops);
    }
  }

  lemma OpenOld<H>(c: seq<Entry<H>>, d: seq<Entry<H>>, k: nat, before: seq<Op<H>>, ops: seq<Op<H>>)
    requires OneEach(c) && Counts(c, before) && k < |c| && c[k].count < MAX_WORD
    requires d == c[k := c[k].(count := c[k].count + 1)]
    requires forall m: Word {:trigger Balance(ops, m)} ::
        Balance(ops, m) == Balance(before, m) + if m == c[k].no then 1 else 0
    ensures OneEach(d) && Counts(d, ops)
  {
    hide After, Balance;
    assert forall i :: 0 <= i < |c| ==> d[i].no == c[i].no && d[i].handle == c[i].handle;
    forall m: Word | IndexOf(d, m) == |d| ensures Balance(ops, m) == 0 {
      forall i | 0 <= i < |c| ensures c[i].no != m {
        assert d[i].no == c[i].no;
      }
      NotListed(c, m);
    }
  }

  lemma OpenNew<H>(c: seq<Entry<H>>, d: seq<Entry<H>>, no: Word, made: H, before: seq<Op<H>>, ops: seq<Op<H>>)
    requires OneEach(c) && Counts(c, before) && IndexOf(c, no) == |c| && HandleIndex(c, made) == |c|
    requires d == c + [Entry(made, no, 1)]
    requires forall m: Word {:trigger Balance(ops, m)} ::
        Balance(ops, m) == Balance(before, m) + if m == no then 1 else 0
    ensures OneEach(d) && Counts(d, ops)
  {
    hide After, Balance;
    forall m: Word | IndexOf(d, m) == |d| ensures Balance(ops, m) == 0 {
      assert d[|c|].no == no;
      forall i | 0 <= i < |c| ensures c[i].no != m {
        assert d[i] == c[i];
      }
      NotListed(c, m);
    }
  }

  lemma NotListed<H>(c: seq<Entry<H>>, m: Word)
    requires forall i :: 0 <= i < |c| ==> c[i].no != m
    ensures IndexOf(c, m) == |c|
  {
  }

  lemma CloseKeeps<H>(before: seq<Op<H>>, h: H)
    requires Proper(before + [Close(h)]) && OneEach(After(before)) && Counts(After(before), before)
    ensures var ops := before + [Close(h)]; OneEach(After(ops)) && Counts(After(ops), ops)
  {
    var op := Op<H>.Close(h);
    var ops := before + [op];
    assert ops[..|ops| - 1] == before && ops[|ops| - 1] == op;
    Unroll(before, op);
    var c, d := After(before), After(ops);
    var k := HandleIndex(c, h);
    assert k < |c|;
    assert d == Closed(c, k);
    hide After, Balance, Proper;
    if Decrement(c[k].count) == 0 {
      CloseLast(c, d, k, before, ops);
    } else {
      CloseOne(c, d, k, before, ops);
    }
  }

  lemma CloseLast<H>(c: seq<Entry<H>>, d: seq<Entry<H>>, k: nat, before: seq<Op<H>>, ops: seq<Op<H>>)
    requires OneEach(c) && Counts(c, before) && k < |c| && c[k].count == 1 && d == Removed(c, k)
    requires forall m: Word {:trigger Balance(ops, m)} ::
        Balance(ops, m) == Balance(before, m) - if m == c[k].no then 1 else 0
    ensures OneEach(d) && Counts(d, ops)
  {
    hide After, Balance;
    forall m: Word | IndexOf(d, m) == |d| ensures Balance(ops, m) == 0 {
      if m != c[k].no {
        forall i | 0 <= i < |c| ensures c[i].no != m {
          assert i != k ==> c[i] == d[if i < k then i else i - 1];
        }
        NotListed(c, m);
      }
    }
  }

  lemma CloseOne<H>(c: seq<Entry<H>>, d: seq<Entry<H>>, k: nat, before: seq<Op<H>>, ops: seq<Op<H>>)
    requires OneEach(c) && Counts(c, before) && k < |c| && c[k].count > 1 && d == c[k := c[k].(count := c[k].count - 1)]
    requires forall m: Word {:trigger Balance(ops, m)} ::
        Balance(ops, m) == Balance(before, m) - if m == c[k].no then 1 else 0
    ensures OneEach(d) && Counts(d, ops)
  {
    hide After, Balance;
    assert forall i :: 0 <= i < |c| ==> d[i].no == c[i].no && d[i].handle == c[i].handle;
    forall m: Word | IndexOf(d, m) == |d| ensures Balance(ops, m) == 0 {
      forall i | 0 <= i < |c| ensures c[i].no != m {
        assert d[i].no == c[i].no;
      }
      NotListed(c, m);
    }
  }

  /** Over every run: no number and no inode is in the list twice, and a number is in the list exactly
      while it has been opened more often than closed, with the difference as its count. */
  lemma {:induction false} CacheInvariant<H>(ops: seq<Op<H>>)
    requires Proper(ops)
    ensures OneEach(After(ops)) && Counts(After(ops), ops)
    decreases |ops|
  {
    if ops == [] {
    } else {
      var before, op := ops[..|ops| - 1], ops[|ops| - 1];
      CacheInvariant(before);
      assert ops == before + [op];
      match op
      case Open(no, made) => OpenKeeps(before, no, made);
      case Close(h) => CloseKeeps(before, h);
    }
  }

  /** An open of a number that is open returns the inode that is already there, and no entry appears. */
  lemma ReopenSame<H>(ops: seq<Op<H>>, no: Word, made: H)
    requires Proper(ops) && Balance(ops, no) > 0
    ensures var c := After(ops); var k := IndexOf(c, no);
            k < |c| && OpenedHandle(c, no, made) == c[k].handle && |Opened(c, no, made, no)| == |c|
  {
    CacheInvariant(ops);
    hide After, Balance;
    assert IndexOf(After(ops), no) < |After(ops)|;
  }

  /** A close takes the inode out of the list exactly when it is the last one outstanding. */
  lemma LastCloseRemoves<H>(ops: seq<Op<H>>, h: H)
    requires Proper(ops + [Close(h)])
    ensures var c := After(ops); var k := HandleIndex(c, h); var d := After(ops + [Close(h)]);
            k < |c| && ((forall i :: 0 <= i < |d| ==> d[i].handle != h) <==> Balance(ops, c[k].no) == 1)
  {
    var op := Op<H>.Close(h);
    var all := ops + [op];
    assert all[..|all| - 1] == ops && all[|all| - 1] == op;
    Unroll(ops, op);
    CacheInvariant(ops);
    var c, d := After(ops), After(all);
    var k := HandleIndex(c, h);
    assert k < |c| && d == Closed(c, k) && c[k].count == Balance(ops, c[k].no);
    hide After, Balance, Proper;
    if c[k].count != 1 {
      assert d[k].handle == h;
    }
  }

  /** Given memory that is not in use, an open keeps the counts right if and only if the number is not open
      2^32 - 1 times already. */
  lemma OpenCountsIff<H>(before: seq<Op<H>>, no: Word, made: H)
    requires Proper(before) && HandleIndex(After(before), made) == |After(before)|
    ensures var ops := before + [Open(no, made)];
            Counts(After(ops), ops) <==> Balance(before, no) < 0xffff_ffff
  {
    var op := Open(no, made);
    var ops := before + [op];
    assert ops[..|ops| - 1] == before && ops[|ops| - 1] == op;
    CacheInvariant(before);
    var c := After(before);
    var k := IndexOf(c, no);
    if Balance(before, no) < MAX_WORD {
      OpenKeeps(before, no, made);
    } else {
      assert k < |c| && c[k].count == MAX_WORD;
      assert After(ops) == c[k := c[k].(count := 0)];
      assert After(ops)[k].count == 0;
    }
  }

  /** The number is opened n times. */
  function Opens<H>(no: Word, made: H, n: nat): (ops: seq<Op<H>>)
    ensures |ops| == n
  {
    if n == 0 then [] else Opens(no, made, n - 1) + [Open(no, made)]
  }

  lemma {:induction false} OpensCount<H>(no: Word, made: H, n: nat)
    requires 1 <= n <= MAX_WORD
    ensures After(Opens(no, made, n)) == [Entry(made, no, n)] && Balance(Opens(no, made, n), no) == n
    decreases n
  {
    var before, op := Opens(no, made, n - 1), Open(no, made);
    Unroll(before, op);
    if n > 1 {
      OpensCount(no, made, n - 1);
      hide After, Balance;
    }
  }

  /** Why the bound: after 2^32 - 1 opens of one number, two more and one close, the inode is out of the list
      although 2^32 opens of it are outstanding. */
  lemma CountWraps<H>(no: Word, h: H)
    ensures var ops := Opens(no, h, MAX_WORD) + [Open(no, h)];
            After(ops) == [Entry(h, no, 0)] && Balance(ops, no) == 0x1_0000_0000
    ensures var ops := Opens(no, h, MAX_WORD) + [Open(no, h)] + [Open(no, h)] + [Close(h)];
            After(ops) == [] && Balance(ops, no) == 0x1_0000_0000
  {
    hide After, Balance, Opens;
    var ops0 := Opens(no, h, MAX_WORD);
    OpensCount(no, h, MAX_WORD);
    Unroll(ops0, Open(no, h));
    var ops1 := ops0 + [Open(no, h)];
    Unroll(ops1, Open(no, h));
    var ops2 := ops1 + [Open(no, h)];
    assert After(ops2) == [Entry(h, no, 1)];
    Unroll(ops2, Close(h));
    var ops3 := ops2 + [Close(h)];
    assert After(ops3) == Closed(After(ops2), 0);
  }

  // ----- the partition -----

  /** struct inode in memory. */
  class MemInode {
    var inode: Inode

    constructor (i: Inode)
      ensures inode == i
    {
      inode := i;
    }

    /** inode_init */
    method Init(no: Word)
      requires WellFormed(inode)
      modifies this
      ensures WellFormed(inode) && inode.no == no && inode.openCnts == 0 && inode.size == 0 && inode.writeDeny == 0
      ensures forall k :: 0 <= k < 13 ==> inode.sectors[k] == 0
    {
      inode := inode.(no := no, openCnts := 0, size := 0, writeDeny := 0);
      for secIdx := 0 to 13
        invariant inode == old(inode).(no := no, openCnts := 0, size := 0, writeDeny := 0, sectors := inode.sectors)
        invariant |inode.sectors| == 13 && forall k :: 0 <= k < secIdx ==> inode.sectors[k] == 0
      {
        inode := inode.(sectors := inode.sectors[secIdx := 0]);
      }
    }
  }

  /** memcpy to buf + at */
  method CopyInto(buf: array<Byte>, at: nat, bytes: seq<Byte>)
    requires at + |bytes| <= buf.Length
    modifies buf
    ensures buf[..] == Patched(old(buf[..]), at, bytes)
  {
    ghost var was := buf[..];
    for i := 0 to |bytes|
      invariant buf[..] == Patched(was, at, bytes[..i])
    {
      buf[at + i] := bytes[i];
    }
    assert bytes[..|bytes|] == bytes;
  }

  /** The record that inode_sync leaves: the fields that only make sense in memory are zero. */
  lemma SyncedHolds(d: Image, at: nat, i: Inode)
    requires at + INODE_SIZE <= |d| && WellFormed(i)
    ensures Holds(Patched(d, at, Encode(Pure(i))), at, i.(openCnts := 0, writeDeny := 0, tagPrev := 0, tagNext := 0))
  {
    hide Encode, Holds;
    PatchedRecord(d, at, Encode(Pure(i)));
    EncodeLayout(Pure(i));
    RecordHolds(Patched(d, at, Encode(Pure(i))), at, Pure(i));
  }

  lemma OpenedHolds(d: Image, at: nat)
    requires at + INODE_SIZE <= |d|
    ensures Holds(d, at, Decode(Record(d, at)).(openCnts := 1).(openCnts := WordAt(d, at + 8)))
  {
    hide Decode, Record;
    var i := Decode(Record(d, at));
    DecodeLayout(Record(d, at));
    RecordHolds(d, at, i);
    assert i.(openCnts := 1).(openCnts := WordAt(d, at + 8)) == i;
  }

  class Partition {
    const channel: Channel
    const devNo: nat
    const startLba: nat
    const sectorCounter: nat
    const inodeTableLba: nat
    var openInodes: seq<MemInode>

    /** The inode table and one sector more are on the drive. */
    ghost predicate Valid()
      reads this, channel, openInodes
    {
      && channel.Valid() && devNo <= 1
      && SECTOR_SIZE * (inodeTableLba + 609) <= |channel.drives[devNo]|
      && forall k :: 0 <= k < |openInodes| ==> WellFormed(openInodes[k].inode)
    }

    ghost function Drive(): Image
      requires Valid()
      reads this, channel, openInodes
    {
      channel.drives[devNo]
    }

    ghost function Entries(): (c: seq<Entry<MemInode>>)
      reads this, openInodes
      ensures |c| == |openInodes|
      ensures forall k ::
          0 <= k < |c| ==> c[k] == Entry(openInodes[k], openInodes[k].inode.no, openInodes[k].inode.openCnts)
    {
      seq(|openInodes|, k requires 0 <= k < |openInodes| reads this, openInodes =>
        Entry(openInodes[k], openInodes[k].inode.no, openInodes[k].inode.openCnts))
    }

    constructor (channel: Channel, devNo: nat, startLba: nat, sectorCounter: nat, inodeTableLba: nat)
      ensures this.channel == channel && this.devNo == devNo && this.startLba == startLba
      ensures this.sectorCounter == sectorCounter && this.inodeTableLba == inodeTableLba
      ensures openInodes == []
    {
      this.channel, this.devNo, this.startLba := channel, devNo, startLba;
      this.sectorCounter, this.inodeTableLba := sectorCounter, inodeTableLba;
      openInodes := [];
    }

    /** The assertions on the way to the disk: the number is one of the 4096 inodes, and select_sector
        accepts the sector. */
    predicate Reachable(no: Word) {
      no < Layout.MAX_FILES_PER_PART && InodeLocate(inodeTableLba, no).secLba <= MAX_LBA
    }

    /** inode_sync.  It stops on an assertion exactly when the number or the sector is out of range, and
        otherwise replaces the bytes of that one record. */
    method Sync(node: MemInode, ioBuff: array<Byte>) returns (done: bool)
      requires Valid() && WellFormed(node.inode) && ioBuff.Length >= 1024
      modifies channel, ioBuff
      ensures channel.Valid()
      ensures done <==> Reachable(node.inode.no)
                        && InodeLocate(inodeTableLba, node.inode.no).secLba <= startLba + sectorCounter
      ensures done ==> var at := RecordAt(inodeTableLba, node.inode.no);
              && at + INODE_SIZE <= |old(Drive())|
              && channel.drives == old(channel.drives)[devNo := Patched(old(Drive()), at, Encode(Pure(node.inode)))]
              && Holds(channel.drives[devNo], at, node.inode.(openCnts := 0, writeDeny := 0, tagPrev := 0, tagNext := 0))
    {
      var no := node.inode.no;
      if no >= Layout.MAX_FILES_PER_PART { return false; }
      var pos := InodeLocate(inodeTableLba, no);
      if pos.secLba > startLba + sectorCounter { return false; }
      var pure := Encode(Pure(node.inode));
      Located(inodeTableLba, no);
      var n := if pos.twoSec then 2 else 1;
      ghost var drive := channel.drives[devNo];
      hide RecordAt, InodeLocate, Encode, Pure, Holds;
      done := channel.Read(devNo, pos.secLba, ioBuff, n);
      if !done { return; }
      ghost var sectors := Sectors(drive, pos.secLba, n);
      CopyInto(ioBuff, pos.offSize, pure);
      assert ioBuff[..SECTOR_SIZE * n] == Patched(sectors, pos.offSize, pure);
      done := channel.Write(devNo, pos.secLba, ioBuff, n);
      PatchThroughSectors(drive, pos.secLba, n, pos.offSize, pure);
      SyncedHolds(drive, RecordAt(inodeTableLba, no), node.inode);
    }

    /** The part of inode_open that reads the record from the disk.  It stops on an assertion exactly when the
        number or the sector is out of range. */
    method ReadRecord(no: Word) returns (done: bool, inode: Inode)
      requires Valid()
      modifies channel`registers
      ensures Valid() && channel.drives == old(channel.drives) && openInodes == old(openInodes)
      ensures done <==> Reachable(no)
      ensures done ==> var at := RecordAt(inodeTableLba, no);
                       at + INODE_SIZE <= |Drive()| && inode == Decode(Record(Drive(), at))
    {
      inode := Inode(0, 0, 0, 0, [], 0, 0);
      if no >= Layout.MAX_FILES_PER_PART { return false, inode; }
      var pos := InodeLocate(inodeTableLba, no);
      Located(inodeTableLba, no);
      var n := if pos.twoSec then 2 else 1;
      hide RecordAt, InodeLocate, Decode;
      var ioBuf := new Byte[SECTOR_SIZE * n];
      done := channel.Read(devNo, pos.secLba, ioBuf, n);
      if !done { return; }
      RecordThroughSectors(channel.drives[devNo], pos.secLba, n, pos.offSize);
      assert ioBuf[..] == Sectors(channel.drives[devNo], pos.secLba, n);
      assert ioBuf[pos.offSize..pos.offSize + INODE_SIZE] == ioBuf[..][pos.offSize..pos.offSize + INODE_SIZE];
      inode := Decode(ioBuf[pos.offSize..pos.offSize + INODE_SIZE]);
    }

    /** inode_open when no open inode has the number: a fresh inode holding the record on the disk, with
        open count 1, at the end of the list.  The disk keeps every byte. */
    method OpenFromDisk(no: Word) returns (node: MemInode?)
      requires Valid()
      modifies this`openInodes, channel`registers
      ensures Valid() && channel.drives == old(channel.drives)
      ensures node != null <==> Reachable(no)
      ensures node == null ==> openInodes == old(openInodes)
      ensures node != null ==> fresh(node) && openInodes == old(openInodes) + [node]
      ensures node != null ==>
                var at := RecordAt(inodeTableLba, no);
                && at + INODE_SIZE <= |Drive()|
                && node.inode == Decode(Record(Drive(), at)).(openCnts := 1)
                && Holds(Drive(), at, node.inode.(openCnts := WordAt(Drive(), at + 8)))
    {
      hide RecordAt, Decode, Record, Holds, WordAt, Reachable;
      var done, inode := ReadRecord(no);
      if !done { return null; }
      OpenedHolds(channel.drives[devNo], RecordAt(inodeTableLba, no));
      node := new MemInode(inode.(openCnts := 1));
      openInodes := openInodes + [node];
    }

    /** The i_no in the record of an inode. */
    ghost function RecordNo(no: Word): Word
      requires Valid() && no < Layout.MAX_FILES_PER_PART
      reads this, channel, openInodes
    {
      Located(inodeTableLba, no);
      Decode(Record(Drive(), RecordAt(inodeTableLba, no))).no
    }

    /** inode_open: the list and the inode returned are those of the specification. */
    method Open(no: Word) returns (node: MemInode?)
      requires Valid() && OneEach(Entries())
      modifies this`openInodes, channel`registers, openInodes
      ensures Valid() && channel.drives == old(channel.drives)
      ensures node == null <==> IndexOf(old(Entries()), no) == |old(Entries())| && !Reachable(no)
      ensures node == null ==> Entries() == old(Entries())
      ensures node != null ==> node == OpenedHandle(old(Entries()), no, node)
      ensures node != null && IndexOf(old(Entries()), no) == |old(Entries())| ==>
                no < Layout.MAX_FILES_PER_PART && fresh(node)
                && Entries() == Opened(old(Entries()), no, node, old(RecordNo(no)))
      ensures IndexOf(old(Entries()), no) < |old(Entries())| ==>
                Entries() == Opened(old(Entries()), no, OpenedHandle(old(Entries()), no, node), no)
    {
      ghost var c := Entries();
      hide OneEach, HandleIndex, Decode, RecordAt;
      for tmp := 0 to |openInodes|
        invariant forall i :: 0 <= i < tmp ==> c[i].no != no
      {
        if openInodes[tmp].inode.no == no {
          node := openInodes[tmp];
          IndexIs(c, tmp);
          OthersElsewhere(c, tmp);
          assert forall i :: 0 <= i < |openInodes| && i != tmp ==> openInodes[i] != node;
          node.inode := node.inode.(openCnts := Increment(node.inode.openCnts));
          return;
        }
      }
      NotListed(c, no);
      node := OpenFromDisk(no);
    }

    /** inode_close of an open inode. */
    method Close(node: MemInode)
      requires Valid() && OneEach(Entries()) && node in openInodes
      modifies this`openInodes, node
      ensures Valid()
      ensures HandleIndex(old(Entries()), node) < |old(Entries())|
      ensures Entries() == Closed(old(Entries()), HandleIndex(old(Entries()), node))
    {
      hide OneEach, HandleIndex, IndexOf;
      ghost var c := Entries();
      var tmp :| 0 <= tmp < |openInodes| && openInodes[tmp] == node;
      assert c[tmp].handle == node;
      IndexIs(c, tmp);
      OthersElsewhere(c, tmp);
      assert forall i :: 0 <= i < |openInodes| && i != tmp ==> openInodes[i] != node;
      node.inode := node.inode.(openCnts := Decrement(node.inode.openCnts));
      ghost var d := Entries();
      assert d == c[tmp := c[tmp].(count := Decrement(c[tmp].count))];
      if node.inode.openCnts == 0 {
        openInodes := Removed(openInodes, tmp);
        assert Entries() == Removed(d, tmp);
        assert Removed(d, tmp) == Removed(c, tmp);
      }
    }

    /** An inode that is written back and then read from the disk again. */
    method SyncThenOpen(node: MemInode, ioBuff: array<Byte>) returns (again: MemInode?)
      requires Valid() && WellFormed(node.inode) && ioBuff.Length >= 1024
      modifies channel, ioBuff, this`openInodes
      ensures again != null <==> Reachable(node.inode.no)
                                 && InodeLocate(inodeTableLba, node.inode.no).secLba <= startLba + sectorCounter
      ensures again != null ==> fresh(again) && again.inode == Pure(node.inode).(openCnts := 1)
      ensures again != null ==> openInodes == old(openInodes) + [again]
    {
      var done := Sync(node, ioBuff);
      if !done { return null; }
      var at := RecordAt(inodeTableLba, node.inode.no);
      PatchedRecord(old(Drive()), at, Encode(Pure(node.inode)));
      RecordRoundTrip(Pure(node.inode));
      assert Valid();
      hide RecordAt, InodeLocate, Decode, Encode, Pure, Holds;
      again := OpenFromDisk(node.inode.no);
    }
  }
}
