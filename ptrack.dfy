/**
 * Decoding a relation's _ptrack change map the way the test helpers read it
 * (tests/helpers/ptrack_helpers.py, get_ptrack_bits_per_page_for_fork):
 * each 8 KiB page of the map starts with a 24-byte header, and every byte
 * of the rest contributes its eight bits, least significant first, through
 * Python's bin(), rjust() and a reversal.
 */
module Ptrack {
  import opened Common
  import opened PageMap

  const BLCKSZ: nat := 8192
  const PTRACK_HEADER_SIZE: nat := 24
  const PAGE_BODY_SIZE: nat := BLCKSZ - PTRACK_HEADER_SIZE

  datatype PtrackError =
    | PtrackFileMissing
    | NotAligned(byteSize: nat)

  // ---------------------------------------------------------------------
  // One byte, as the Python code turns it into bits
  // ---------------------------------------------------------------------

  /** bin(n)[2:]: the binary digits of n, most significant first, "0" for 0. */
  function Bin(n: nat): (s: string)
    ensures |s| >= 1
    ensures forall i :: 0 <= i < |s| ==> s[i] == '0' || s[i] == '1'
  {
    if n < 2 then [if n == 0 then '0' else '1'] else Bin(n / 2) + [if n % 2 == 0 then '0' else '1']
  }

  /** s.rjust(width, fill) */
  function RJust(s: string, width: nat, fill: char): (r: string)
    ensures |r| == if |s| >= width then |s| else width
  {
    if |s| >= width then s else seq(width - |s|, _ => fill) + s
  }

  /** s[::-1] */
  function Reverse(s: string): (r: string)
    ensures |r| == |s|
    ensures forall i :: 0 <= i < |s| ==> r[i] == s[|s| - 1 - i]
  {
    seq(|s|, i requires 0 <= i < |s| => s[|s| - 1 - i])
  }

  /** int(bit) for a character of a binary string. */
  function BitValue(c: char): int {
    if c == '1' then 1 else 0
  }

  /** bin(ord(byte))[2:].rjust(8, '0')[::-1] */
  function InvertedBits(b: byte): string {
    Reverse(RJust(Bin(b), 8, '0'))
  }

  /** The character of bit k of n. */
  function BitChar(n: nat, k: nat): char {
    if (n / Pow2(k)) % 2 == 1 then '1' else '0'
  }

  /** Euclidean division is determined by a quotient and a remainder in range. */
  lemma DivUnique(n: int, d: int, q: int, r: int)
    requires d > 0 && 0 <= r < d && n == q * d + r
    ensures n / d == q
  {
    var q0, r0 := n / d, n % d;
    assert q * d + r == q0 * d + r0;
    var e := q - q0;
    assert e * d == q * d - q0 * d;
    assert e * d == r0 - r;
    if e >= 1 {
      MulAtLeast(e, d);
    } else if e <= -1 {
      MulAtLeast(-e, d);
    }
  }

  lemma MulAtLeast(a: int, d: int)
    requires a >= 1 && d > 0
    ensures a * d >= d
  {
    assert a * d == (a - 1) * d + d;
  }

  lemma DivPow2Step(n: nat, k: nat)
    ensures (n / 2) / Pow2(k) == n / Pow2(k + 1)
  {
    var p := Pow2(k);
    var q, r := (n / 2) / p, (n / 2) % p;
    assert n / 2 == q * p + r;
    assert n == q * (2 * p) + (2 * r + n % 2);
    DivUnique(n, 2 * p, q, 2 * r + n % 2);
  }

  /** Reading bin(n) from its end gives the bits of n from the least significant one. */
  lemma {:induction false} BinDigit(n: nat, k: nat)
    requires k < |Bin(n)|
    ensures Bin(n)[|Bin(n)| - 1 - k] == BitChar(n, k)
    decreases n
  {
    if n >= 2 {
      if k > 0 {
        BinDigit(n / 2, k - 1);
        DivPow2Step(n, k - 1);
      }
    }
  }

  /** bin(n) has no more digits than n needs: n < 2^|bin(n)|, and 2^(|bin(n)| - 1) <= n for n >= 1. */
  lemma {:induction false} BinLength(n: nat)
    ensures n < Pow2(|Bin(n)|)
    ensures n >= 1 ==> Pow2(|Bin(n)| - 1) <= n
    decreases n
  {
    if n >= 2 {
      BinLength(n / 2);
    }
  }

  lemma Pow2Monotone(a: nat, b: nat)
    requires a <= b
    ensures Pow2(a) <= Pow2(b)
    decreases b
  {
    if a < b {
      Pow2Monotone(a, b - 1);
    }
  }

  /** A byte needs at most eight binary digits. */
  lemma BinOfByte(b: byte)
    ensures |Bin(b)| <= 8
  {
    BinLength(b);
    if |Bin(b)| > 8 {
      Pow2Monotone(8, |Bin(b)| - 1);
      assert false;
    }
  }

  /** Bits above the last digit of bin(n) are zero. */
  lemma HighBitZero(n: nat, k: nat)
    requires |Bin(n)| <= k
    ensures (n / Pow2(k)) % 2 == 0
  {
    BinLength(n);
    Pow2Monotone(|Bin(n)|, k);
    DivUnique(n, Pow2(k), 0, n);
  }

  /** The Python route yields bit k of the byte at position k. */
  lemma InvertedBitsIndex(b: byte, k: nat)
    requires k < 8
    ensures |InvertedBits(b)| == 8
    ensures BitValue(InvertedBits(b)[k]) == Bit(b, k)
  {
    var bin := Bin(b);
    BinOfByte(b);
    var padded := RJust(bin, 8, '0');
    assert InvertedBits(b)[k] == padded[7 - k];
    if k < |bin| {
      assert padded[7 - k] == bin[|bin| - 1 - k];
      BinDigit(b, k);
    } else {
      assert padded[7 - k] == '0';
      HighBitZero(b, k);
    }
  }

  /** [int(bit) for bit in s] */
  function BitValues(s: string): (bits: seq<int>)
    ensures |bits| == |s|
    ensures forall i :: 0 <= i < |s| ==> bits[i] == BitValue(s[i])
  {
    seq(|s|, i requires 0 <= i < |s| => BitValue(s[i]))
  }

  /** The eight values the Python code appends for one byte are its bits, least significant first. */
  lemma InvertedBitsAreByteBits(b: byte)
    ensures BitValues(InvertedBits(b)) == ByteBits(b)
  {
    forall k | 0 <= k < 8 ensures BitValues(InvertedBits(b))[k] == ByteBits(b)[k] {
      InvertedBitsIndex(b, k);
    }
    InvertedBitsIndex(b, 0);
  }

  // ---------------------------------------------------------------------
  // The whole map
  // ---------------------------------------------------------------------

  /** The body of map page p: its bytes after the header. */
  function PageBody(ptrack: Bytes, p: nat): (body: Bytes)
    requires BLCKSZ * (p + 1) <= |ptrack|
    ensures |body| == PAGE_BODY_SIZE
  {
    ptrack[BLCKSZ * p + PTRACK_HEADER_SIZE .. BLCKSZ * (p + 1)]
  }

  /** The bodies of the first n map pages, one after the other. */
  function Bodies(ptrack: Bytes, n: nat): (bodies: Bytes)
    requires BLCKSZ * n <= |ptrack|
    ensures |bodies| == PAGE_BODY_SIZE * n
  {
    if n == 0 then [] else Bodies(ptrack, n - 1) + PageBody(ptrack, n - 1)
  }

  lemma {:induction false} BodiesIndex(ptrack: Bytes, n: nat, p: nat, j: nat)
    requires BLCKSZ * n <= |ptrack|
    requires p < n && j < PAGE_BODY_SIZE
    ensures Bodies(ptrack, n)[p * PAGE_BODY_SIZE + j] == ptrack[BLCKSZ * p + PTRACK_HEADER_SIZE + j]
  {
    if p < n - 1 {
      BodiesIndex(ptrack, n - 1, p, j);
    }
  }

  /** The bits the map holds, as the helper returns them. */
  function MapBits(ptrack: Bytes): (bits: seq<int>)
    requires |ptrack| % BLCKSZ == 0
    ensures |bits| == (|ptrack| / BLCKSZ) * PAGE_BODY_SIZE * 8
  {
    Unpack(Bodies(ptrack, |ptrack| / BLCKSZ))
  }

  /**
   * Bit (p * 8168 + j) * 8 + k of the result is bit k, least significant
   * first, of byte 8192 * p + 24 + j of the map.
   */
  lemma MapBitsIndex(ptrack: Bytes, p: nat, j: nat, k: nat)
    requires |ptrack| % BLCKSZ == 0
    requires p < |ptrack| / BLCKSZ && j < PAGE_BODY_SIZE && k < 8
    ensures (p * PAGE_BODY_SIZE + j) * 8 + k < |MapBits(ptrack)|
    ensures MapBits(ptrack)[(p * PAGE_BODY_SIZE + j) * 8 + k] == Bit(ptrack[BLCKSZ * p + PTRACK_HEADER_SIZE + j], k)
  {
    var n := |ptrack| / BLCKSZ;
    var i := p * PAGE_BODY_SIZE + j;
    assert i < PAGE_BODY_SIZE * n by {
      assert p * PAGE_BODY_SIZE <= (n - 1) * PAGE_BODY_SIZE;
    }
    UnpackIndex(Bodies(ptrack, n), i * 8 + k);
    assert (i * 8 + k) / 8 == i && (i * 8 + k) % 8 == k;
    BodiesIndex(ptrack, n, p, j);
  }

  /**
   * get_ptrack_bits_per_page_for_fork: a data file of size 0 needs no map;
   * otherwise the map must exist and be a whole number of pages (the helper
   * exits otherwise), and the bits of every page body are appended.
   */
  method PtrackBitsPerPageForFork(dataFileSize: nat, ptrack: Option<Bytes>) returns (r: Result<seq<int>, PtrackError>)
    ensures dataFileSize == 0 ==> r == Ok([])
    ensures dataFileSize > 0 && ptrack.None? ==> r == Err(PtrackFileMissing)
    ensures dataFileSize > 0 && ptrack.Some? && |ptrack.value| % BLCKSZ != 0 ==>
              r == Err(NotAligned(|ptrack.value|))
    ensures dataFileSize > 0 && ptrack.Some? && |ptrack.value| % BLCKSZ == 0 ==>
              r == Ok(MapBits(ptrack.value))
  {
    if dataFileSize == 0 {
      return Ok([]);
    }
    if ptrack.None? {
      return Err(PtrackFileMissing);
    }
    var data := ptrack.value;
    var byteSize := |data|;
    var npages := byteSize / BLCKSZ;
    if byteSize % BLCKSZ != 0 {
      return Err(NotAligned(byteSize));
    }
    var bits: seq<int> := [];
    var page := 0;
    while page < npages
      invariant 0 <= page <= npages
      invariant bits == Unpack(Bodies(data, page))
    {
      var offset := BLCKSZ * page + PTRACK_HEADER_SIZE;
      var body := data[offset .. offset + PAGE_BODY_SIZE];
      assert body == PageBody(data, page);
      bits := AppendPageBits(bits, body);
      UnpackAppend(Bodies(data, page), body);
      page := page + 1;
    }
    return Ok(bits);
  }

  /** The inner loop: the bits of one page body, byte by byte, appended. */
  method AppendPageBits(bits0: seq<int>, body: Bytes) returns (bits: seq<int>)
    ensures bits == bits0 + Unpack(body)
  {
    bits := bits0;
    var i := 0;
    while i < |body|
      invariant 0 <= i <= |body|
      invariant bits == bits0 + Unpack(body[..i])
    {
      bits := AppendInverted(bits, body[i]);
      assert body[..i + 1] == body[..i] + [body[i]];
      UnpackAppend(body[..i], [body[i]]);
      i := i + 1;
    }
    assert body[..i] == body;
  }

  /** for bit in byte_inverted: ptrack_bits_for_fork.append(int(bit)) */
  method AppendInverted(bits: seq<int>, b: byte) returns (bits': seq<int>)
    ensures bits' == bits + ByteBits(b)
  {
    var inverted := InvertedBits(b);
    bits' := bits;
    var k := 0;
    while k < |inverted|
      invariant 0 <= k <= |inverted|
      invariant bits' == bits + BitValues(inverted[..k])
    {
      bits' := bits' + [BitValue(inverted[k])];
      assert BitValues(inverted[..k + 1]) == BitValues(inverted[..k]) + [BitValue(inverted[k])];
      k := k + 1;
    }
    assert inverted[..k] == inverted;
    InvertedBitsAreByteBits(b);
    assert [b] == [b] && Unpack([b]) == ByteBits(b) + Unpack([]);
  }

  /** A change map whose bytes are all zero decodes to bits that are all clear. */
  lemma {:induction false} UnpackZeros(bytes: Bytes)
    requires forall i :: 0 <= i < |bytes| ==> bytes[i] == 0
    ensures forall i :: 0 <= i < |Unpack(bytes)| ==> Unpack(bytes)[i] == 0
  {
    if bytes != [] {
      UnpackZeros(bytes[1..]);
      assert Unpack(bytes) == ByteBits(bytes[0]) + Unpack(bytes[1..]);
    }
  }

  lemma {:induction false} BodiesZeros(ptrack: Bytes, n: nat)
    requires BLCKSZ * n <= |ptrack|
    requires forall i :: 0 <= i < |ptrack| ==> ptrack[i] == 0
    ensures forall i :: 0 <= i < |Bodies(ptrack, n)| ==> Bodies(ptrack, n)[i] == 0
  {
    if n > 0 {
      BodiesZeros(ptrack, n - 1);
    }
  }

  /**
   * A freshly cleared map: every bit the helper returns for a _ptrack file
   * of zero bytes is 0, which is what check_ptrack_clean expects.
   */
  lemma ZeroMapIsClean(ptrack: Bytes)
    requires |ptrack| % BLCKSZ == 0
    requires forall i :: 0 <= i < |ptrack| ==> ptrack[i] == 0
    ensures forall i :: 0 <= i < |MapBits(ptrack)| ==> MapBits(ptrack)[i] == 0
  {
    BodiesZeros(ptrack, |ptrack| / BLCKSZ);
    UnpackZeros(Bodies(ptrack, |ptrack| / BLCKSZ));
  }
}
