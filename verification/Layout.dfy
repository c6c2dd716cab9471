/** The layout numbers of a formatted partition. */
module Layout {

  const SECTOR_SIZE := 512
  const BITS_PER_SECTOR := 4096
  const MAX_FILES_PER_PART := 4096
  const INODE_SIZE := 76          // sizeof(struct inode)

  function DivRoundUp(x: nat, step: nat): nat
    requires step > 0
  {
    (x + step - 1) / step
  }

  /** The fields of the super block that name regions, as partition_format computes them. */
  datatype SuperBlock = SuperBlock(
    blockBitmapLba: nat, blockBitmapSects: nat,
    inodeBitmapLba: nat, inodeBitmapSects: nat,
    inodeTableLba: nat, inodeTableSects: nat,
    dataStartLba: nat,
    blockBitmapBitLen: nat)       // not stored: the number of data blocks

  /** Sectors the format needs besides the block bitmap: boot, super block, inode bitmap, inode table. */
  const USED_SECTS := 2 + DivRoundUp(MAX_FILES_PER_PART, BITS_PER_SECTOR) + DivRoundUp(INODE_SIZE * MAX_FILES_PER_PART, SECTOR_SIZE)

  function Format(startLba: nat, sectorCounter: nat): SuperBlock
    requires sectorCounter > USED_SECTS
  {
    var inodeBitmapSects := DivRoundUp(MAX_FILES_PER_PART, BITS_PER_SECTOR);
    var inodeTableSects := DivRoundUp(INODE_SIZE * MAX_FILES_PER_PART, SECTOR_SIZE);
    var usedSects := 2 + inodeBitmapSects + inodeTableSects;
    var freeSects := sectorCounter - usedSects;
    var firstGuess := DivRoundUp(freeSects, BITS_PER_SECTOR);
    var blockBitmapBitLen := freeSects - firstGuess;
    var blockBitmapSects := DivRoundUp(blockBitmapBitLen, BITS_PER_SECTOR);
    var blockBitmapLba := startLba + 2;
    var inodeBitmapLba := blockBitmapLba + blockBitmapSects;
    var inodeTableLba := inodeBitmapLba + inodeBitmapSects;
    SuperBlock(blockBitmapLba, blockBitmapSects, inodeBitmapLba, inodeBitmapSects,
               inodeTableLba, inodeTableSects, inodeTableSects + inodeTableSects, blockBitmapBitLen)
  }

  /** The first sector after the inode table, where the data region is meant to start. */
  function DataStart(sb: SuperBlock): nat {
    sb.inodeTableLba + sb.inodeTableSects
  }

  /** The regions follow one another from the start of the partition, the block bitmap has a bit for
      every data block and no sector to spare, the data blocks are the free sectors less one for each 4096 of them
      or part of 4096, they end inside the partition, and the sectors wasted at its end are at most one for each
      4096 sectors of block bitmap. */
  lemma LayoutSound(startLba: nat, sectorCounter: nat)
    requires sectorCounter > USED_SECTS
    ensures var sb := Format(startLba, sectorCounter);
      && sb.blockBitmapLba == startLba + 2
      && sb.inodeBitmapLba == sb.blockBitmapLba + sb.blockBitmapSects
      && sb.inodeTableLba == sb.inodeBitmapLba + sb.inodeBitmapSects
      && sb.inodeBitmapSects == 1 && sb.inodeTableSects == 608
      && sb.inodeTableSects * SECTOR_SIZE == MAX_FILES_PER_PART * INODE_SIZE
      && sb.inodeBitmapSects * BITS_PER_SECTOR == MAX_FILES_PER_PART
      && sb.blockBitmapBitLen <= sb.blockBitmapSects * BITS_PER_SECTOR < sb.blockBitmapBitLen + BITS_PER_SECTOR
      && DataStart(sb) + sb.blockBitmapBitLen <= startLba + sectorCounter
      && (var free := sectorCounter - 611;
          var aside := free - sb.blockBitmapBitLen;
          BITS_PER_SECTOR * (aside - 1) < free <= BITS_PER_SECTOR * aside)
      && var wasted := startLba + sectorCounter - (DataStart(sb) + sb.blockBitmapBitLen);
         && wasted * BITS_PER_SECTOR < sb.blockBitmapSects + wasted + BITS_PER_SECTOR
         && (sectorCounter <= 0x100_0000 ==> wasted <= 1)
  {
  }

  /** The data_start_lba that is stored is 1216 whatever the partition.  It is the first sector after
      the inode table exactly when the partition start and the block bitmap add up to 605, and it lies
      behind the inode table exactly when they add up to no more. */
  lemma StoredDataStart(startLba: nat, sectorCounter: nat)
    requires sectorCounter > USED_SECTS
    ensures var sb := Format(startLba, sectorCounter);
      && sb.dataStartLba == 1216
      && (sb.dataStartLba == DataStart(sb) <==> startLba + sb.blockBitmapSects == 605)
      && (sb.dataStartLba >= DataStart(sb) <==> startLba + sb.blockBitmapSects <= 605)
  {
  }

  /** A partition of 20000 sectors at 2048: the stored data start lies in front of the partition. */
  lemma StoredDataStartFails()
    ensures var sb := Format(2048, 20000); sb.dataStartLba < 2048 < DataStart(sb)
  {
  }
}
