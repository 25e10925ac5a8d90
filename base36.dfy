/**
 * Backup identifiers are start times written in base 36 (src/util.c,
 * base36enc_to and base36dec). The encoder fills a local buffer from its
 * end with a do-while loop and copies the result into the caller's buffer
 * with strncpy; the decoder is strtoul(text, NULL, 36).
 */
module Base36 {
  import opened Common

  /** base36bufsize: 13 digits of a 64-bit value and the terminating NUL. */
  const BUF_SIZE: nat := 14

  const ULONG_MAX: nat := UINT64_MODULUS - 1

  /** The d-th character of the table "0123456789ABCDEFGHIJKLMNOPQRSTUVWXYZ". */
  function DigitChar36(d: nat): (c: char)
    requires d < 36
    ensures IsDigit36(c) && DigitValue36(c) == d
  {
    if d < 10 then ('0' as int + d) as char else ('A' as int + d - 10) as char
  }

  /** The base-36 digits of v, most significant first, upper-case letters. */
  function Digits(v: nat): (s: string)
    ensures |s| >= 1
    ensures forall i :: 0 <= i < |s| ==> IsDigit36(s[i])
  {
    if v < 36 then [DigitChar36(v)] else Digits(v / 36) + [DigitChar36(v % 36)]
  }

  /** The digits followed by NULs up to n characters, as strncpy leaves its target. */
  function Padded(s: string, n: nat): (r: seq<char>)
    requires |s| <= n
    ensures |r| == n && r[..|s|] == s
    ensures forall i :: |s| <= i < n ==> r[i] == '\0'
  {
    s + seq(n - |s|, _ => '\0')
  }

  // ---------------------------------------------------------------------
  // Encoding
  // ---------------------------------------------------------------------

  /**
   * base36enc_to: the caller's buffer receives the digits of value, most
   * significant first, padded with NULs to its full size.
   */
  method EncodeTo(value: nat, buf: array<char>)
    requires value <= ULONG_MAX
    requires buf.Length == BUF_SIZE
    modifies buf
    ensures |Digits(value)| < BUF_SIZE
    ensures buf[..] == Padded(Digits(value), BUF_SIZE)
  {
    DigitsFitBuffer(value);
    var buffer := new char[BUF_SIZE];
    buffer[BUF_SIZE - 1] := '\0';
    var p := FillDigits(value, buffer);
    assert '\0' !in buffer[p..BUF_SIZE - 1] by {
      forall j | 0 <= j < |Digits(value)| ensures Digits(value)[j] != '\0' {
        assert IsDigit36(Digits(value)[j]);
      }
    }
    // strncpy(buf, p, base36bufsize)
    StrNCopy(buf, buffer, p);
  }

  /** The do-while loop writing the digits of value backwards, before the NUL in the last cell. */
  method FillDigits(value: nat, buffer: array<char>) returns (p: nat)
    requires buffer.Length == BUF_SIZE && |Digits(value)| < BUF_SIZE
    modifies buffer
    ensures p < BUF_SIZE - 1 && buffer[BUF_SIZE - 1] == old(buffer[BUF_SIZE - 1])
    ensures buffer[p..BUF_SIZE - 1] == Digits(value)
  {
    p := BUF_SIZE - 1;
    var v := value;
    // do { *(--p) = base36[value % 36]; } while (value /= 36);
    p := p - 1;
    buffer[p] := DigitChar36(v % 36);
    assert Digits(v) == DigitsLeft(v / 36) + [DigitChar36(v % 36)];
    ghost var written := [DigitChar36(v % 36)];
    v := v / 36;
    while v != 0
      invariant 0 <= p < BUF_SIZE - 1 && buffer[BUF_SIZE - 1] == old(buffer[BUF_SIZE - 1])
      invariant buffer[p..BUF_SIZE - 1] == written
      invariant Digits(value) == DigitsLeft(v) + written
      invariant |DigitsLeft(v)| <= p
      decreases v
    {
      var digit, rest := DigitChar36(v % 36), v / 36;
      WriteDigitStep(value, v, written);
      p := p - 1;
      buffer[p] := digit;
      assert buffer[p..BUF_SIZE - 1] == [digit] + written;
      written := [digit] + written;
      v := rest;
    }
  }

  /** One pass of the do-while loop moves the last digit still to write in front of those written. */
  lemma WriteDigitStep(value: nat, v: nat, written: string)
    requires v != 0 && Digits(value) == DigitsLeft(v) + written
    ensures Digits(value) == DigitsLeft(v / 36) + ([DigitChar36(v % 36)] + written)
    ensures |DigitsLeft(v / 36)| < |DigitsLeft(v)|
  {
    var digit, rest := DigitChar36(v % 36), v / 36;
    assert Digits(v) == DigitsLeft(rest) + [digit];
    assert (DigitsLeft(rest) + [digit]) + written == DigitsLeft(rest) + ([digit] + written);
  }

  /** What the do-while loop has still to write: nothing once value reached 0. */
  function DigitsLeft(v: nat): string {
    if v == 0 then [] else Digits(v)
  }

  /**
   * strncpy(dst, src + from, dst.Length) for a source whose string ends at
   * the last cell of its array: the characters up to the NUL are copied and
   * the rest of dst is filled with NULs.
   */
  method StrNCopy(dst: array<char>, src: array<char>, from: nat)
    requires dst != src && from < src.Length <= dst.Length + from
    requires src[src.Length - 1] == '\0' && '\0' !in src[from..src.Length - 1]
    modifies dst
    ensures dst[..] == Padded(src[from..src.Length - 1], dst.Length)
  {
    var n := src.Length - 1 - from;
    var i := 0;
    while i < dst.Length && src[from + i] != '\0'
      invariant 0 <= i <= n
      invariant dst[..i] == src[from..from + i]
    {
      dst[i] := src[from + i];
      i := i + 1;
    }
    while i < dst.Length
      invariant n <= i <= dst.Length
      invariant dst[..n] == src[from..src.Length - 1]
      invariant forall j :: n <= j < i ==> dst[j] == '\0'
    {
      dst[i] := '\0';
      i := i + 1;
    }
    assert dst[..] == Padded(src[from..src.Length - 1], dst.Length);
  }

  function Pow36(k: nat): nat {
    if k == 0 then 1 else 36 * Pow36(k - 1)
  }

  lemma {:induction false} DigitsLength(v: nat, k: nat)
    requires 1 <= k && v < Pow36(k)
    ensures |Digits(v)| <= k
  {
    if v >= 36 {
      assert k >= 2;
      DigitsLength(v / 36, k - 1);
    }
  }

  /** Every 64-bit value has at most 13 base-36 digits, so it fits the buffer with its NUL. */
  lemma DigitsFitBuffer(v: nat)
    requires v <= ULONG_MAX
    ensures |Digits(v)| <= BUF_SIZE - 1
  {
    assert Pow36(13) == 170581728179578208256;
    DigitsLength(v, 13);
  }

  /** The encoding has no leading zero, except for the value 0 itself. */
  lemma {:induction false} NoLeadingZero(v: nat)
    ensures Digits(v)[0] == '0' <==> v == 0
  {
    if v >= 36 {
      NoLeadingZero(v / 36);
    }
  }

  // ---------------------------------------------------------------------
  // Decoding: strtoul(text, NULL, 36)
  // ---------------------------------------------------------------------

  predicate IsDigit36(c: char) {
    ('0' <= c <= '9') || ('A' <= c <= 'Z') || ('a' <= c <= 'z')
  }

  /** The value of one base-36 digit; letters count the same in either case. */
  function DigitValue36(c: char): (d: nat)
    requires IsDigit36(c)
    ensures d < 36
  {
    if '0' <= c <= '9' then c as int - '0' as int
    else if 'A' <= c <= 'Z' then c as int - 'A' as int + 10
    else c as int - 'a' as int + 10
  }

  function LeadingDigits36(s: string): (d: string)
    ensures |d| <= |s| && d == s[..|d|]
    ensures forall i :: 0 <= i < |d| ==> IsDigit36(d[i])
  {
    if s != [] && IsDigit36(s[0]) then [s[0]] + LeadingDigits36(s[1..]) else []
  }

  function Value36(s: string): nat
    requires forall i :: 0 <= i < |s| ==> IsDigit36(s[i])
  {
    if s == [] then 0 else Value36(s[..|s| - 1]) * 36 + DigitValue36(s[|s| - 1])
  }

  /**
   * base36dec: white space is skipped, an optional sign is read, then the
   * longest run of base-36 digits. A value beyond ULONG_MAX gives ULONG_MAX;
   * a minus sign negates modulo 2^64; no digits at all give 0.
   */
  function Decode(text: string): (r: nat)
    ensures r <= ULONG_MAX
  {
    var t := SkipSpaces(text);
    var neg := t != [] && t[0] == '-';
    var u := if t != [] && (t[0] == '-' || t[0] == '+') then t[1..] else t;
    var v := Value36(LeadingDigits36(u));
    if v > ULONG_MAX then ULONG_MAX
    else if neg then (UINT64_MODULUS - v) % UINT64_MODULUS
    else v
  }

  lemma {:induction false} ValueOfDigits(v: nat)
    ensures Value36(Digits(v)) == v
  {
    if v >= 36 {
      var s := Digits(v);
      assert s[..|s| - 1] == Digits(v / 36);
      ValueOfDigits(v / 36);
    }
  }

  lemma {:induction false} LeadingDigits36OfAll(s: string)
    requires forall i :: 0 <= i < |s| ==> IsDigit36(s[i])
    ensures LeadingDigits36(s) == s
  {
    if s != [] {
      LeadingDigits36OfAll(s[1..]);
    }
  }

  /** Round trip: decoding what the encoder wrote gives back the value. */
  lemma DecodeEncode(v: nat)
    requires v <= ULONG_MAX
    ensures Decode(Digits(v)) == v
  {
    var s := Digits(v);
    ValueOfDigits(v);
    LeadingDigits36OfAll(s);
    assert IsDigit36(s[0]);
    SkipSpacesNoop(s);
  }

  /** Round trip through the caller's buffer, read as a C string. */
  lemma DecodeBuffer(v: nat)
    requires v <= ULONG_MAX
    ensures |Digits(v)| < BUF_SIZE
    ensures Decode(CString(Padded(Digits(v), BUF_SIZE))) == v
  {
    DigitsFitBuffer(v);
    var s := Digits(v);
    assert '\0' !in s by {
      forall i | 0 <= i < |s| ensures s[i] != '\0' { assert IsDigit36(s[i]); }
    }
    assert Padded(s, BUF_SIZE) == s + seq(BUF_SIZE - |s|, _ => '\0');
    CStringOfTerminated(s, seq(BUF_SIZE - |s|, _ => '\0'));
    DecodeEncode(v);
  }
}
