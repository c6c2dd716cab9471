/** Sector transfers in chunks of at most 256 sectors, through the registers of an ATA channel. */
module Ide {

  const SECTOR_SIZE := 512
  const MAX_LBA := 163839   // 80 * 1024 * 1024 / 512 - 1

  type Byte = b: int | 0 <= b < 256

  /** A drive as the bytes of its sectors. */
  type Image = seq<Byte>

  function Sectors(d: Image, lba: nat, n: nat): (r: seq<Byte>)
    requires SECTOR_SIZE * (lba + n) <= |d|
    ensures |r| == SECTOR_SIZE * n
  {
    d[SECTOR_SIZE * lba..SECTOR_SIZE * (lba + n)]
  }

  function Written(d: Image, lba: nat, bytes: seq<Byte>): (r: Image)
    requires SECTOR_SIZE * lba + |bytes| <= |d|
    ensures |r| == |d|
  {
    d[..SECTOR_SIZE * lba] + bytes + d[SECTOR_SIZE * lba + |bytes|..]
  }

  /** What was written is read back. */
  lemma ReadBack(d: Image, lba: nat, n: nat, bytes: seq<Byte>)
    requires SECTOR_SIZE * (lba + n) <= |d| && |bytes| == SECTOR_SIZE * n
    ensures Sectors(Written(d, lba, bytes), lba, n) == bytes
  {
  }

  /** Every other sector is what it was. */
  lemma OtherSectors(d: Image, lba: nat, bytes: seq<Byte>, n: nat, k: nat)
    requires SECTOR_SIZE * (lba + n) <= |d| && |bytes| == SECTOR_SIZE * n
    requires SECTOR_SIZE * (k + 1) <= |d| && !(lba <= k < lba + n)
    ensures Sectors(Written(d, lba, bytes), k, 1) == Sectors(d, k, 1)
  {
  }

  // ----- the task file of the channel -----

  datatype Registers = Registers(count: Byte, lbaLow: Byte, lbaMid: Byte, lbaHigh: Byte, device: Byte)

  /** READ SECTOR(S) and WRITE SECTOR(S), ATA/ATAPI-6 clause 8: a sector count of 0 stands for 256. */
  function DeviceCount(r: Registers): nat {
    if r.count == 0 then 256 else r.count
  }

  /** The 28-bit address; the low four bits of the device register are its top bits. */
  function DeviceLba(r: Registers): nat {
    r.lbaLow + 0x100 * r.lbaMid + 0x1_0000 * r.lbaHigh + 0x100_0000 * (r.device % 16)
  }

  /** Bit 4 of the device register selects the drive. */
  function DeviceDrive(r: Registers): nat {
    r.device / 16 % 2
  }

  function Truncate(x: nat): Byte {
    x % 256
  }

  /** The five bytes that select_sector writes.  BIT_DEV_DEFAULT | BIT_DEV_LBA is 0xe0. */
  function Selected(devNo: nat, lba: nat, secCnt: nat): Registers
    requires lba <= MAX_LBA
  {
    Registers(Truncate(secCnt), Truncate(lba), Truncate(lba / 0x100), Truncate(lba / 0x1_0000),
              0xe0 + (if devNo == 1 then 0x10 else 0) + lba / 0x100_0000)
  }

  /** Bits 5, 6 and 7 of the device register: the address is a block address, not cylinder, head and sector. */
  predicate LbaMode(r: Registers) {
    r.device / 32 == 7
  }

  /** The device sees the drive, the address, byte by byte, and the sector count that the driver meant. */
  lemma DeviceSees(devNo: nat, lba: nat, secCnt: nat)
    requires devNo <= 1 && lba <= MAX_LBA && 1 <= secCnt <= 256
    ensures var r := Selected(devNo, lba, secCnt);
            && LbaMode(r) && r.lbaLow == lba % 0x100 && r.lbaMid == lba / 0x100 % 0x100 && r.lbaHigh == lba / 0x1_0000
    ensures DeviceDrive(Selected(devNo, lba, secCnt)) == devNo
    ensures DeviceLba(Selected(devNo, lba, secCnt)) == lba
    ensures DeviceCount(Selected(devNo, lba, secCnt)) == secCnt
  {
    LbaBytes(lba);
  }

  lemma LbaBytes(lba: nat)
    requires lba <= MAX_LBA
    ensures lba / 0x100_0000 == 0
    ensures lba % 256 + 0x100 * (lba / 0x100 % 256) + 0x1_0000 * (lba / 0x1_0000 % 256) == lba
  {
    var q := lba / 0x100;
    assert lba / 0x1_0000 == q / 256;
  }

  /** The chunk starts at which ide_read and ide_write call select_sector all pass its assertion. */
  predicate Addressable(lba: nat, secCnt: nat) {
    secCnt > 0 && lba + (secCnt - 1) / 256 * 256 <= MAX_LBA
  }

  const DISK_BYTES := 80 * 1024 * 1024

  /** On the disk of 80 MB every request that lies on the disk is addressable, and none that starts behind it. */
  lemma DiskAddressable(lba: nat, secCnt: nat)
    ensures secCnt > 0 && SECTOR_SIZE * (lba + secCnt) <= DISK_BYTES ==> Addressable(lba, secCnt)
    ensures SECTOR_SIZE * lba >= DISK_BYTES || secCnt == 0 ==> !Addressable(lba, secCnt)
  {
    assert (secCnt - 1) / 256 * 256 <= secCnt - 1;
  }

  /** All chunks but the last are of 256 sectors. */
  predicate Chunked(secDone: nat, secCnt: nat) {
    secDone < secCnt ==> secDone % 256 == 0
  }

  /** cur is was with the first n sectors read into it. */
  ghost predicate ReadSoFar(d: Image, lba: nat, was: seq<Byte>, cur: seq<Byte>, n: nat)
  {
    SECTOR_SIZE * (lba + n) <= |d| && SECTOR_SIZE * n <= |was| && cur == Written(was, 0, Sectors(d, lba, n))
  }

  class Channel {
    var registers: Registers
    var drives: seq<Image>    // the master and the slave

    ghost predicate Valid()
      reads this
    {
      |drives| == 2
    }

    constructor (master: Image, slave: Image)
      ensures Valid() && drives == [master, slave]
    {
      registers := Registers(0, 0, 0, 0, 0);
      drives := [master, slave];
    }

    method SelectSector(devNo: nat, lba: nat, secCnt: nat)
      requires lba <= MAX_LBA
      modifies this`registers
      ensures registers == Selected(devNo, lba, secCnt)
    {
      registers := Registers(Truncate(secCnt), Truncate(lba), Truncate(lba / 0x100), Truncate(lba / 0x1_0000),
                             0xe0 + (if devNo == 1 then 0x10 else 0) + lba / 0x100_0000);
    }

    /** The range of the selected drive that the registers name. */
    ghost predicate InDevice()
      requires Valid()
      reads this
    {
      SECTOR_SIZE * (DeviceLba(registers) + DeviceCount(registers)) <= |drives[DeviceDrive(registers)]|
    }

    /** read_from_sector after a READ SECTOR(S) command: the words that the driver takes from the data
        port are those of the sectors the registers name. */
    method ReadFromSector(buf: array<Byte>, at: nat, secCnt: Byte)
      requires Valid() && InDevice() && DeviceCount(registers) == if secCnt == 0 then 256 else secCnt
      requires at + SECTOR_SIZE * DeviceCount(registers) <= buf.Length
      modifies buf
      ensures var n := SECTOR_SIZE * DeviceCount(registers);
              buf[..] == old(buf[..at]) +
                         Sectors(drives[DeviceDrive(registers)], DeviceLba(registers), DeviceCount(registers)) +
                         old(buf[at + n..])
    {
      var bytesCnt := if secCnt == 0 then 256 * 512 else secCnt * 512;
      var port := Sectors(drives[DeviceDrive(registers)], DeviceLba(registers), DeviceCount(registers));
      ghost var was := buf[..];
      for i := 0 to bytesCnt
        invariant buf[..] == was[..at] + port[..i] + was[at + i..]
      {
        buf[at + i] := port[i];
      }
    }

    /** write_to_sector after a WRITE SECTOR(S) command. */
    method WriteToSector(buf: array<Byte>, at: nat, secCnt: Byte)
      requires Valid() && InDevice() && DeviceCount(registers) == if secCnt == 0 then 256 else secCnt
      requires at + SECTOR_SIZE * DeviceCount(registers) <= buf.Length
      modifies this`drives
      ensures var d := DeviceDrive(registers);
              drives == old(drives)[d := Written(old(drives)[d], DeviceLba(registers),
                                                 buf[at..at + SECTOR_SIZE * DeviceCount(registers)])]
    {
      var bytesCnt := if secCnt == 0 then 256 * 512 else secCnt * 512;
      var d := DeviceDrive(registers);
      drives := drives[d := Written(drives[d], DeviceLba(registers), buf[at..at + bytesCnt])];
    }

    /** The body of the loop of ide_read: one command. */
    method ReadChunk(devNo: nat, lba: nat, buf: array<Byte>, secDone: nat, secOp: nat)
      requires Valid() && devNo <= 1 && lba + secDone <= MAX_LBA && 1 <= secOp <= 256
      requires SECTOR_SIZE * (lba + secDone + secOp) <= |drives[devNo]|
      requires SECTOR_SIZE * (secDone + secOp) <= buf.Length
      modifies this`registers, buf
      ensures buf[..] == Written(old(buf[..]), secDone, Sectors(drives[devNo], lba + secDone, secOp))
    {
      SelectSector(devNo, lba + secDone, secOp);
      DeviceSees(devNo, lba + secDone, secOp);
      hide Selected, DeviceCount, DeviceLba, DeviceDrive, Sectors;
      ReadFromSector(buf, SECTOR_SIZE * secDone, Truncate(secOp));
    }

    /** The body of the loop of ide_write. */
    method WriteChunk(devNo: nat, lba: nat, buf: array<Byte>, secDone: nat, secOp: nat)
      requires Valid() && devNo <= 1 && lba + secDone <= MAX_LBA && 1 <= secOp <= 256
      requires SECTOR_SIZE * (lba + secDone + secOp) <= |drives[devNo]|
      requires SECTOR_SIZE * (secDone + secOp) <= buf.Length
      modifies this
      ensures drives == old(drives)[devNo := Written(old(drives)[devNo], lba + secDone,
                                                     buf[SECTOR_SIZE * secDone..SECTOR_SIZE * (secDone + secOp)])]
    {
      SelectSector(devNo, lba + secDone, secOp);
      DeviceSees(devNo, lba + secDone, secOp);
      hide Selected, DeviceCount, DeviceLba, DeviceDrive, Written;
      WriteToSector(buf, SECTOR_SIZE * secDone, Truncate(secOp));
    }

    /** ide_read.  It stops on a failed assertion exactly when the request is not addressable, and
        otherwise copies the sectors, in order, into the buffer. */
    method Read(devNo: nat, lba: nat, buf: array<Byte>, secCnt: nat) returns (done: bool)
      requires Valid() && devNo <= 1 && SECTOR_SIZE * (lba + secCnt) <= |drives[devNo]|
      requires SECTOR_SIZE * secCnt <= buf.Length
      modifies this`registers, buf
      ensures done <==> Addressable(lba, secCnt)
      ensures |drives[devNo]| == DISK_BYTES ==> (done <==> secCnt > 0)
      ensures done ==> buf[..] == Sectors(drives[devNo], lba, secCnt) + old(buf[SECTOR_SIZE * secCnt..])
    {
      DiskAddressable(lba, secCnt);
      if lba > MAX_LBA || secCnt == 0 { return false; }
      hide Sectors, Written, Addressable;
      ghost var was, bytes := buf[..], Sectors(drives[devNo], lba, secCnt);
      WrittenFromStart(was, bytes);
      assert was[SECTOR_SIZE * secCnt..] == buf[SECTOR_SIZE * secCnt..];
      done := ReadChunks(devNo, lba, buf, secCnt);
    }

    /** One turn of the loop of ide_read. */
    method ReadTurn(devNo: nat, lba: nat, buf: array<Byte>, secDone: nat, secCnt: nat, ghost was: seq<Byte>)
      returns (ok: bool, next: nat)
      requires Valid() && devNo <= 1 && SECTOR_SIZE * (lba + secCnt) <= |drives[devNo]|
      requires SECTOR_SIZE * secCnt <= buf.Length && secDone < secCnt && Chunked(secDone, secCnt)
      requires |was| == buf.Length && ReadSoFar(drives[devNo], lba, was, buf[..], secDone)
      modifies this`registers, buf
      ensures !ok ==> !Addressable(lba, secCnt)
      ensures ok ==> secDone < next <= secCnt && Chunked(next, secCnt) && Addressable(lba, next)
      ensures ok ==> ReadSoFar(drives[devNo], lba, was, buf[..], next)
    {
      hide Sectors, Written, Addressable, Chunked, ReadSoFar;
      ghost var cur := buf[..];
      var secOp := if secCnt - secDone >= 256 then 256 else secCnt - secDone;
      NextChunk(lba, secDone, secOp, secCnt);
      if lba + secDone > MAX_LBA { return false, secDone; }
      ReadChunk(devNo, lba, buf, secDone, secOp);
      ReadOn(drives[devNo], lba, was, cur, buf[..], secDone, secOp);
      return true, secDone + secOp;
    }

    /** The loop of ide_read. */
    method ReadChunks(devNo: nat, lba: nat, buf: array<Byte>, secCnt: nat) returns (done: bool)
      requires Valid() && devNo <= 1 && SECTOR_SIZE * (lba + secCnt) <= |drives[devNo]|
      requires SECTOR_SIZE * secCnt <= buf.Length && lba <= MAX_LBA && secCnt > 0
      modifies this`registers, buf
      ensures done <==> Addressable(lba, secCnt)
      ensures done ==> buf[..] == Written(old(buf[..]), 0, Sectors(drives[devNo], lba, secCnt))
    {
      assert Chunked(0, secCnt);
      ghost var was, d := buf[..], drives[devNo];
      var secDone := 0;
      NothingYet(d, lba, was);
      hide Sectors, Written, Addressable, Chunked, ReadSoFar;
      ghost var cur := was;
      done := true;
      while secDone < secCnt
        invariant 0 <= secDone <= secCnt && Chunked(secDone, secCnt)
        invariant buf[..] == cur && |cur| == |was|
        invariant ReadSoFar(d, lba, was, cur, secDone)
        invariant done && (secDone > 0 ==> Addressable(lba, secDone))
        decreases secCnt - secDone
      {
        done, secDone := ReadTurn(devNo, lba, buf, secDone, secCnt, was);
        if !done { return; }
        cur := buf[..];
      }
      AllRead(d, lba, was, cur, secCnt);
    }

    /** ide_write.  The sectors take the contents of the buffer; the other drive and every other sector
        keep theirs. */
    method Write(devNo: nat, lba: nat, buf: array<Byte>, secCnt: nat) returns (done: bool)
      requires Valid() && devNo <= 1 && SECTOR_SIZE * (lba + secCnt) <= |drives[devNo]|
      requires SECTOR_SIZE * secCnt <= buf.Length
      modifies this
      ensures Valid()
      ensures done <==> Addressable(lba, secCnt)
      ensures |old(drives)[devNo]| == DISK_BYTES ==> (done <==> secCnt > 0)
      ensures done ==> drives == old(drives)[devNo := Written(old(drives)[devNo], lba, buf[..SECTOR_SIZE * secCnt])]
    {
      DiskAddressable(lba, secCnt);
      if lba > MAX_LBA || secCnt == 0 { return false; }
      assert Chunked(0, secCnt);
      hide Written, Addressable, Chunked;
      var secDone := 0;
      WrittenNothing(drives[devNo], lba);
      assert buf[..0] == [];
      while secDone < secCnt
        invariant Valid() && secDone <= secCnt && Chunked(secDone, secCnt)
        invariant drives == old(drives)[devNo := Written(old(drives)[devNo], lba, buf[..SECTOR_SIZE * secDone])]
        invariant secDone > 0 ==> Addressable(lba, secDone)
      {
        var secOp := if secCnt - secDone >= 256 then 256 else secCnt - secDone;
        NextChunk(lba, secDone, secOp, secCnt);
        if lba + secDone > MAX_LBA { return false; }
        ghost var a, b := SECTOR_SIZE * secDone, SECTOR_SIZE * (secDone + secOp);
        WriteOn(old(drives)[devNo], lba, secDone, buf[..a], buf[a..b]);
        assert buf[..a] + buf[a..b] == buf[..b];
        WriteChunk(devNo, lba, buf, secDone, secOp);
        secDone := secDone + secOp;
      }
      done := true;
    }
  }

  /** What ide_write put on a drive, ide_read gets back, whatever the number of chunks. */
  method WriteThenRead(channel: Channel, devNo: nat, lba: nat, src: array<Byte>, dst: array<Byte>, secCnt: nat)
    returns (done: bool)
    requires channel.Valid() && devNo <= 1 && SECTOR_SIZE * (lba + secCnt) <= |channel.drives[devNo]|
    requires SECTOR_SIZE * secCnt <= src.Length && SECTOR_SIZE * secCnt <= dst.Length && src != dst
    modifies channel, dst
    ensures done <==> Addressable(lba, secCnt)
    ensures done ==> dst[..SECTOR_SIZE * secCnt] == src[..SECTOR_SIZE * secCnt]
    ensures done ==> channel.Valid() && channel.drives[1 - devNo] == old(channel.drives)[1 - devNo]
    ensures done ==> |channel.drives[devNo]| == |old(channel.drives)[devNo]|
    ensures done ==> forall k ::
        0 <= k && SECTOR_SIZE * (k + 1) <= |channel.drives[devNo]| && !(lba <= k < lba + secCnt) ==>
                       Sectors(channel.drives[devNo], k, 1) == Sectors(old(channel.drives)[devNo], k, 1)
  {
    ghost var was := channel.drives[devNo];
    ghost var bytes := src[..SECTOR_SIZE * secCnt];
    done := channel.Write(devNo, lba, src, secCnt);
    if !done { return; }
    done := channel.Read(devNo, lba, dst, secCnt);
    ReadBack(was, lba, secCnt, bytes);
    forall k | 0 <= k && SECTOR_SIZE * (k + 1) <= |was| && !(lba <= k < lba + secCnt)
      ensures Sectors(Written(was, lba, bytes), k, 1) == Sectors(was, k, 1)
    {
      OtherSectors(was, lba, bytes, secCnt, k);
    }
  }

  lemma WrittenNothing(d: Image, lba: nat)
    requires SECTOR_SIZE * lba <= |d|
    ensures Written(d, lba, []) == d
  {
  }

  lemma NothingYet(d: Image, lba: nat, was: seq<Byte>)
    requires SECTOR_SIZE * lba <= |d|
    ensures ReadSoFar(d, lba, was, was, 0)
  {
  }

  lemma AllRead(d: Image, lba: nat, was: seq<Byte>, cur: seq<Byte>, n: nat)
    requires ReadSoFar(d, lba, was, cur, n)
    ensures SECTOR_SIZE * (lba + n) <= |d| && SECTOR_SIZE * n <= |was| && cur == Written(was, 0, Sectors(d, lba, n))
  {
  }

  lemma ReadOn(d: Image, lba: nat, was: seq<Byte>, cur: seq<Byte>, now: seq<Byte>, n: nat, k: nat)
    requires ReadSoFar(d, lba, was, cur, n) && SECTOR_SIZE * (lba + n + k) <= |d| && SECTOR_SIZE * (n + k) <= |was|
    requires |cur| == |was| && now == Written(cur, n, Sectors(d, lba + n, k))
    ensures ReadSoFar(d, lba, was, now, n + k)
  {
    ReadStep(d, was, lba, n, k);
  }

  /** The chunk that starts at secDone is addressable when the whole request is. */
  lemma NextChunk(lba: nat, secDone: nat, secOp: nat, secCnt: nat)
    requires Chunked(secDone, secCnt) && secOp == (if secCnt - secDone >= 256 then 256 else secCnt - secDone)
    requires secDone < secCnt
    ensures lba + secDone > MAX_LBA ==> !Addressable(lba, secCnt)
    ensures lba + secDone <= MAX_LBA ==> Addressable(lba, secDone + secOp)
    ensures 1 <= secOp <= 256 && secDone + secOp <= secCnt
    ensures Chunked(secDone + secOp, secCnt)
  {
    assert (secDone + secOp - 1) / 256 == secDone / 256;
    assert (secCnt - 1) / 256 >= secDone / 256;
  }

  /** The sectors read so far and the next chunk are the sectors read afterwards. */
  lemma ReadStep(d: Image, was: seq<Byte>, lba: nat, n: nat, k: nat)
    requires SECTOR_SIZE * (lba + n + k) <= |d| && SECTOR_SIZE * (n + k) <= |was|
    ensures Written(Written(was, 0, Sectors(d, lba, n)), n, Sectors(d, lba + n, k))
         == Written(was, 0, Sectors(d, lba, n + k))
  {
    assert Sectors(d, lba, n) + Sectors(d, lba + n, k) == Sectors(d, lba, n + k);
    WriteOn(was, 0, n, Sectors(d, lba, n), Sectors(d, lba + n, k));
  }

  lemma WrittenFromStart(d: Image, bytes: seq<Byte>)
    requires |bytes| <= |d|
    ensures Written(d, 0, bytes) == bytes + d[|bytes|..]
  {
  }

  /** Two adjacent writes are one. */
  lemma WriteOn(d: Image, lba: nat, n: nat, a: seq<Byte>, b: seq<Byte>)
    requires |a| == SECTOR_SIZE * n && SECTOR_SIZE * lba + |a| + |b| <= |d|
    ensures Written(Written(d, lba, a), lba + n, b) == Written(d, lba, a + b)
  {
  }
}
