/**
 * The page bitmap of an incremental backup (src/util.c, datapagemap_is_set):
 * bit k of byte i stands for block 8*i + k. The same least-significant-bit
 * first layout is what the ptrack change map uses.
 */
module PageMap {
  import opened Common

  function Pow2(k: nat): (p: nat)
    ensures p >= 1
  {
    if k == 0 then 1 else 2 * Pow2(k - 1)
  }

  /** Bit k of a byte, as b & (1 << k) tests it: 0 or 1. */
  function Bit(b: byte, k: nat): (r: int)
    requires k < 8
    ensures r == 0 || r == 1
  {
    (b / Pow2(k)) % 2
  }

  /** The bits of a byte, least significant first. */
  function ByteBits(b: byte): (bits: seq<int>)
    ensures |bits| == 8
    ensures forall k :: 0 <= k < 8 ==> bits[k] == Bit(b, k)
  {
    seq(8, k requires 0 <= k < 8 => Bit(b, k))
  }

  /** The bits of a byte string, byte after byte, each least significant bit first. */
  function Unpack(bytes: Bytes): (bits: seq<int>)
    ensures |bits| == 8 * |bytes|
  {
    if bytes == [] then [] else ByteBits(bytes[0]) + Unpack(bytes[1..])
  }

  /** Block b of the unpacked bitmap is bit b % 8 of byte b / 8. */
  lemma {:induction false} UnpackIndex(bytes: Bytes, blkno: nat)
    requires blkno < 8 * |bytes|
    ensures Unpack(bytes)[blkno] == Bit(bytes[blkno / 8], blkno % 8)
  {
    if blkno >= 8 {
      UnpackIndex(bytes[1..], blkno - 8);
      assert (blkno - 8) / 8 == blkno / 8 - 1 && (blkno - 8) % 8 == blkno % 8;
    }
  }

  /** Unpacking a concatenation unpacks each part. */
  lemma {:induction false} UnpackAppend(a: Bytes, b: Bytes)
    ensures Unpack(a + b) == Unpack(a) + Unpack(b)
  {
    if a != [] {
      assert (a + b)[1..] == a[1..] + b;
      UnpackAppend(a[1..], b);
      assert (a + b)[0] == a[0];
    } else {
      assert a + b == b;
    }
  }

  /**
   * datapagemap_is_set: the map holds bitmapsize bytes; a block whose byte
   * lies beyond them is not set, otherwise its bit is read.
   */
  function IsSet(bitmap: Bytes, bitmapsize: int, blkno: nat): (r: bool)
    requires blkno < UINT32_MODULUS
    requires bitmapsize <= |bitmap|
    ensures r ==> blkno < 8 * bitmapsize
  {
    var offset := blkno / 8;
    var bitno := blkno % 8;
    if bitmapsize <= offset then false else Bit(bitmap[offset], bitno) != 0
  }

  /** A block is set exactly when it is a 1 among the unpacked bits of the map. */
  lemma IsSetUnpack(bitmap: Bytes, bitmapsize: nat, blkno: nat)
    requires blkno < UINT32_MODULUS
    requires bitmapsize <= |bitmap|
    ensures IsSet(bitmap, bitmapsize, blkno) <==>
              blkno < |Unpack(bitmap[..bitmapsize])| && Unpack(bitmap[..bitmapsize])[blkno] == 1
  {
    if blkno < 8 * bitmapsize {
      UnpackIndex(bitmap[..bitmapsize], blkno);
    }
  }

  /** Bytes past bitmapsize never matter. */
  lemma IsSetIgnoresTail(bitmap: Bytes, other: Bytes, bitmapsize: int, blkno: nat)
    requires blkno < UINT32_MODULUS
    requires bitmapsize <= |bitmap| && bitmapsize <= |other|
    requires bitmapsize <= 0 || bitmap[..bitmapsize] == other[..bitmapsize]
    ensures IsSet(bitmap, bitmapsize, blkno) == IsSet(other, bitmapsize, blkno)
  {
    if 0 < bitmapsize && blkno / 8 < bitmapsize {
      assert bitmap[blkno / 8] == bitmap[..bitmapsize][blkno / 8];
      assert other[blkno / 8] == other[..bitmapsize][blkno / 8];
    }
  }
}
