/** The bitmap allocator's bitmap: single bits, and the first-fit search. */
module Bitmaps {

  /** BIT_MASK << offset */
  function Mask(offset: nat): (m: bv8)
    requires offset < 8
    ensures m != 0
  {
    match offset
    case 0 => 1
    case 1 => 2
    case 2 => 4
    case 3 => 8
    case 4 => 16
    case 5 => 32
    case 6 => 64
    case 7 => 128
  }

  lemma MaskShifts(offset: nat)
    requires offset < 8
    ensures Mask(offset) == (1 as bv8) << offset
  {
  }

  predicate BitOf(b: bv8, offset: nat)
    requires offset < 8
  {
    b & Mask(offset) != 0
  }

  lemma SetBit(b: bv8, offset: nat, k: nat)
    requires offset < 8 && k < 8
    ensures BitOf(b | Mask(offset), k) <==> k == offset || BitOf(b, k)
    ensures BitOf(b & !Mask(offset), k) <==> k != offset && BitOf(b, k)
  {
  }

  lemma FullByte(b: bv8)
    ensures b == 0xff <==> forall k :: 0 <= k < 8 ==> BitOf(b, k)
  {
    if forall k :: 0 <= k < 8 ==> BitOf(b, k) {
      assert BitOf(b, 0) && BitOf(b, 1) && BitOf(b, 2) && BitOf(b, 3);
      assert BitOf(b, 4) && BitOf(b, 5) && BitOf(b, 6) && BitOf(b, 7);
    }
  }

  /** cnt consecutive free bits at start. */
  predicate FreeRun(v: seq<bool>, start: int, cnt: nat) {
    0 <= start && start + cnt <= |v| && forall j :: start <= j < start + cnt ==> !v[j]
  }

  /** r is the least start of cnt consecutive free bits of v, and -1 if v has none. */
  ghost predicate FirstFit(v: seq<bool>, cnt: nat, r: int) {
    if r == -1 then forall s :: !FreeRun(v, s, cnt)
    else FreeRun(v, r, cnt) && forall s :: s < r ==> !FreeRun(v, s, cnt)
  }

  function BitsOf(s: seq<bv8>): (v: seq<bool>)
    ensures |v| == 8 * |s|
    ensures forall i :: 0 <= i < |v| ==> v[i] == BitOf(s[i / 8], i % 8)
  {
    seq(8 * |s|, i requires 0 <= i < 8 * |s| => BitOf(s[i / 8], i % 8))
  }

  class Bitmap {
    const bitmapLen: nat        // in bytes
    const bits: array<bv8>      // the bitmap and whatever follows it in memory

    /** bitmap_len * 8 is an int; bitmap_scan can read one byte past the bitmap. */
    predicate Valid() {
      bitmapLen < 0x1000_0000 && bitmapLen < bits.Length
    }

    ghost function Memory(): (v: seq<bool>)
      reads bits
    {
      BitsOf(bits[..])
    }

    /** The bits of the bitmap proper. */
    ghost function View(): seq<bool>
      requires Valid()
      reads bits
    {
      Memory()[..8 * bitmapLen]
    }

    /** The bits that bitmap_scan looks at: one more than the bitmap has. */
    ghost function Scanned(): seq<bool>
      requires Valid()
      reads bits
    {
      Memory()[..8 * bitmapLen + 1]
    }

    constructor (len: nat)
      requires len < 0x1000_0000
      ensures Valid() && bitmapLen == len && fresh(bits)
      ensures bits.Length == len + 1
      ensures forall i :: 0 <= i < 8 * len ==> !View()[i]
    {
      bitmapLen := len;
      bits := new bv8[len + 1](_ => 0);
    }

    /** bitmap_init: every bit of the bitmap is free, what follows is untouched. */
    method Init()
      requires Valid()
      modifies bits
      ensures forall i :: 0 <= i < |Memory()| ==> Memory()[i] == (8 * bitmapLen <= i && old(Memory())[i])
    {
      for index := 0 to bitmapLen
        invariant forall k :: 0 <= k < index ==> bits[k] == 0
        invariant forall k :: index <= k < bits.Length ==> bits[k] == old(bits[k])
      {
        bits[index] := 0;
      }
    }

    /** bitmap_scan_test: nonzero exactly when the bit is set. */
    method ScanTest(index: nat) returns (r: bv8)
      requires index < 8 * bits.Length
      ensures r != 0 <==> Memory()[index]
    {
      var base, offset := index / 8, index % 8;
      r := bits[base] & Mask(offset);
    }

    /** bitmap_set, which changes exactly one bit. */
    method Set(index: nat, value: bool)
      requires index < 8 * bits.Length
      modifies bits
      ensures Memory() == old(Memory())[index := value]
    {
      var base, offset := index / 8, index % 8;
      ghost var was := bits[..];
      bits[base] := if value then bits[base] | Mask(offset) else bits[base] & !Mask(offset);
      assert bits[..] == was[base := bits[base]];
      SetBitAt(was, index, value, bits[base]);
    }

    /** The first loop of bitmap_scan: the first byte that is not full. */
    method FirstByte() returns (index: nat)
      requires Valid()
      ensures index <= bitmapLen && (index < bitmapLen ==> bits[index] != 0xff)
      ensures forall k :: 0 <= k < index ==> bits[k] == 0xff
    {
      index := 0;
      while index < bitmapLen && bits[index] == 0xff
        invariant 0 <= index <= bitmapLen
        invariant forall k :: 0 <= k < index ==> bits[k] == 0xff
      {
        index := index + 1;
      }
    }

    /** The second loop: the first free bit of that byte. */
    method FirstFree() returns (bitIndex: int)
      requires Valid()
      ensures -1 <= bitIndex < 8 * bitmapLen
      ensures bitIndex == -1 ==> forall i :: 0 <= i < 8 * bitmapLen ==> Memory()[i]
      ensures bitIndex >= 0 ==> !Memory()[bitIndex] && forall i :: 0 <= i < bitIndex ==> Memory()[i]
    {
      hide Mask, BitOf;
      var index := FirstByte();
      FullBytes(bits[..], index);
      if index == bitmapLen { return -1; }
      var offset := FirstBit(bits[index]);
      bitIndex := index * 8 + offset;
    }

    static method FirstBit(b: bv8) returns (offset: nat)
      requires b != 0xff
      ensures offset < 8 && !BitOf(b, offset) && forall k :: 0 <= k < offset ==> BitOf(b, k)
    {
      FullByte(b);
      offset := 0;
      while Mask(offset) & b != 0
        invariant 0 <= offset < 8
        invariant forall k :: 0 <= k < offset ==> BitOf(b, k)
        decreases 8 - offset
      {
        assert BitOf(b, offset);
        offset := offset + 1;
      }
    }

    /** bitmap_scan.  The search for a single bit stays inside the bitmap; the search for more than one
        is first fit over one bit more than the bitmap has; a search for none fails. */
    method Scan(cnt: nat) returns (r: int)
      requires Valid()
      ensures cnt == 0 ==> r == -1
      ensures cnt == 1 ==> FirstFit(View(), 1, r)
      ensures cnt >= 2 ==> FirstFit(Scanned(), cnt, r)
    {
      hide Mask, BitOf, BitsOf;
      var bitIndex := FirstFree();
      if bitIndex == -1 {
        if cnt >= 1 { NoRunFrom(View(), cnt, 8 * bitmapLen); NoRunFrom(Scanned(), cnt, 8 * bitmapLen); }
        return -1;
      }
      var bitLeft := bitmapLen * 8 - bitIndex;
      if cnt == 1 {
        NoRunFrom(View(), 1, bitIndex);
        return bitIndex;
      }
      if cnt >= 2 { NoRunFrom(Scanned(), cnt, bitIndex); }
      var counter := 1;
      bitIndex := bitIndex + 1;
      hide FreeRun;
      while bitLeft > 0
        invariant 0 <= bitLeft && bitIndex + bitLeft == 8 * bitmapLen + 1
        invariant 0 <= counter <= bitIndex && (cnt >= 2 ==> counter < cnt)
        invariant forall j :: bitIndex - counter <= j < bitIndex ==> !Scanned()[j]
        invariant cnt >= 2 ==> forall s :: s < bitIndex - counter ==> !FreeRun(Scanned(), s, cnt)
      {
        var bit := ScanTest(bitIndex);
        if bit == 0 {
          counter := counter + 1;
          bitIndex := bitIndex + 1;
          if counter == cnt {
            RunFound(Scanned(), bitIndex - cnt, cnt);
            return bitIndex - cnt;
          }
        } else {
          RunSpoiled(Scanned(), cnt, bitIndex);
          counter := 0;
          bitIndex := bitIndex + 1;
        }
        bitLeft := bitLeft - 1;
      }
      if cnt >= 2 { RunTooLong(Scanned(), cnt, bitIndex - counter); }
      return -1;
    }
  }

  lemma FullBytes(s: seq<bv8>, n: nat)
    requires n <= |s| && forall k :: 0 <= k < n ==> s[k] == 0xff
    ensures forall i :: 0 <= i < 8 * n ==> BitsOf(s)[i]
  {
    forall i | 0 <= i < 8 * n ensures BitsOf(s)[i] {
      FullByte(s[i / 8]);
    }
  }

  /** No run starts before the first free bit. */
  lemma NoRunFrom(v: seq<bool>, cnt: nat, limit: nat)
    requires cnt >= 1 && limit <= |v| && forall j :: 0 <= j < limit ==> v[j]
    ensures forall s :: s < limit ==> !FreeRun(v, s, cnt)
    ensures limit + cnt > |v| ==> forall s :: !FreeRun(v, s, cnt)
  {
    forall s | s < limit ensures !FreeRun(v, s, cnt) {
      assert 0 <= s ==> v[s];
    }
  }

  /** A set bit inside a run spoils it; a run cannot reach past the end. */
  lemma RunSpoiled(v: seq<bool>, cnt: nat, at: nat)
    requires at < |v| && v[at]
    ensures forall s :: s <= at < s + cnt ==> !FreeRun(v, s, cnt)
  {
  }

  lemma RunFound(v: seq<bool>, start: nat, cnt: nat)
    requires start + cnt <= |v| && forall j :: start <= j < start + cnt ==> !v[j]
    ensures FreeRun(v, start, cnt)
  {
  }

  lemma RunTooLong(v: seq<bool>, cnt: nat, start: int)
    requires start + cnt > |v|
    ensures forall s :: start <= s ==> !FreeRun(v, s, cnt)
  {
  }

  lemma SetBitAt(s: seq<bv8>, index: nat, value: bool, b: bv8)
    requires index < 8 * |s|
    requires b == if value then s[index / 8] | Mask(index % 8) else s[index / 8] & !Mask(index % 8)
    ensures BitsOf(s[index / 8 := b]) == BitsOf(s)[index := value]
  {
    hide Mask, BitOf;
    var v := BitsOf(s[index / 8 := b]);
    forall i | 0 <= i < |v| ensures v[i] == BitsOf(s)[index := value][i] {
      BitAfter(s, index, value, b, i);
    }
  }

  lemma BitAfter(s: seq<bv8>, index: nat, value: bool, b: bv8, i: nat)
    requires index < 8 * |s| && i < 8 * |s|
    requires b == if value then s[index / 8] | Mask(index % 8) else s[index / 8] & !Mask(index % 8)
    ensures BitOf(s[index / 8 := b][i / 8], i % 8) == if i == index then value else BitOf(s[i / 8], i % 8)
  {
    hide Mask, BitOf;
    SetBit(s[index / 8], index % 8, i % 8);
    SameBit(i, index);
  }

  lemma SameBit(i: nat, j: nat)
    ensures i == j <==> i / 8 == j / 8 && i % 8 == j % 8
  {
  }

  // ----- the extra bit -----

  /** The free bits at the end of the bitmap, together with the one after it, make the only run. */
  ghost predicate Overruns(v: seq<bool>, after: bool, cnt: nat) {
    && cnt >= 2
    && !after
    && FreeRun(v, |v| - (cnt - 1), cnt - 1)
    && forall s :: !FreeRun(v, s, cnt)
  }

  /** What bitmap_scan returns when asked for more than one bit, against what it is meant to return:
      the answer is first fit inside the bitmap unless the bitmap ends in cnt - 1 free bits, holds no
      run of cnt, and is followed by a zero bit in memory; then it is the run that leaves the bitmap. */
  lemma ScanExact(v: seq<bool>, after: bool, cnt: nat, r: int)
    requires cnt >= 2 && FirstFit(v + [after], cnt, r)
    ensures FirstFit(v, cnt, r) <==> !Overruns(v, after, cnt)
    ensures Overruns(v, after, cnt) <==> r >= 0 && r + cnt == |v| + 1
  {
    var w := v + [after];
    forall s ensures FreeRun(v, s, cnt) <==> FreeRun(w, s, cnt) && s + cnt <= |v| {
      if FreeRun(v, s, cnt) {
        assert forall j :: s <= j < s + cnt ==> w[j] == v[j];
      }
      if FreeRun(w, s, cnt) && s + cnt <= |v| {
        assert forall j :: s <= j < s + cnt ==> w[j] == v[j];
      }
    }
    LastRun(v, after, cnt);
    if Overruns(v, after, cnt) {
      assert FreeRun(w, |w| - cnt, cnt);
    }
  }

  lemma LastRun(v: seq<bool>, after: bool, cnt: nat)
    requires cnt >= 2
    ensures FreeRun(v + [after], |v| + 1 - cnt, cnt) <==> !after && FreeRun(v, |v| + 1 - cnt, cnt - 1)
  {
    var w := v + [after];
    if FreeRun(w, |v| + 1 - cnt, cnt) {
      assert !w[|v|];
      assert forall j :: |v| + 1 - cnt <= j < |v| ==> w[j] == v[j];
    }
  }

  /** Eight bits, the last one free, and a zero byte behind them: a run of two is reported at bit 7. */
  lemma ScanLeavesBitmap()
    ensures var v := [true, true, true, true, true, true, true, false];
            FirstFit(v + [false], 2, 7) && !FirstFit(v, 2, 7) && FirstFit(v, 2, -1)
  {
    var v := [true, true, true, true, true, true, true, false];
    NoRunFrom(v, 2, 7);
    NoRunFrom(v + [false], 2, 7);
    assert FreeRun(v + [false], 7, 2);
  }
}
