/**
 * Shared vocabulary of the model: option and result values, bytes,
 * NUL-terminated C strings, and the decimal conversions that the C code
 * performs with printf("%d") and sscanf("%d").
 */
module Common {

  datatype Option<T> = None | Some(value: T)

  datatype Result<T, E> = Ok(value: T) | Err(error: E)

  /** An unsigned 8-bit value. */
  type byte = b: int | 0 <= b < 256
  type Bytes = seq<byte>

  // ---------------------------------------------------------------------
  // C strings
  // ---------------------------------------------------------------------

  /** The characters of a NUL-terminated buffer up to (not including) the first NUL. */
  function CString(buf: seq<char>): (s: seq<char>)
    ensures |s| <= |buf| && s == buf[..|s|]
    ensures '\0' !in s
    ensures |s| < |buf| ==> buf[|s|] == '\0'
  {
    if buf == [] || buf[0] == '\0' then [] else [buf[0]] + CString(buf[1..])
  }

  /** A C string followed by a NUL reads back as itself. */
  lemma {:induction false} CStringOfTerminated(s: string, t: seq<char>)
    requires '\0' !in s && t != [] && t[0] == '\0'
    ensures CString(s + t) == s
  {
    if s != [] {
      assert (s + t)[1..] == s[1..] + t;
      CStringOfTerminated(s[1..], t);
    }
  }

  /** C's isspace() in the "C" locale. */
  predicate IsCSpace(c: char) {
    c == ' ' || c == '\t' || c == '\n' || c == '\U{0B}' || c == '\U{0C}' || c == '\r'
  }

  predicate IsDigit(c: char) { '0' <= c <= '9' }

  predicate AllDigits(s: string) { forall i :: 0 <= i < |s| ==> IsDigit(s[i]) }

  function DigitChar(d: nat): (c: char)
    requires d < 10
    ensures IsDigit(c)
  {
    ('0' as int + d) as char
  }

  function DigitValue(c: char): (d: nat)
    requires IsDigit(c)
    ensures d < 10 && DigitChar(d) == c
  {
    (c as int - '0' as int)
  }

  // ---------------------------------------------------------------------
  // Decimal rendering, as printf("%d") does it
  // ---------------------------------------------------------------------

  /** Decimal digits of n, most significant first, without leading zeros. */
  function NatToString(n: nat): (s: string)
    ensures |s| >= 1 && AllDigits(s)
    ensures n >= 10 ==> s[0] != '0'
  {
    if n < 10 then [DigitChar(n)] else NatToString(n / 10) + [DigitChar(n % 10)]
  }

  /** printf("%d", n): a minus sign for negative values, then the digits. */
  function Itoa(n: int): (s: string)
    ensures |s| >= 1
    ensures n >= 0 ==> s == NatToString(n)
    ensures n < 0 ==> s == "-" + NatToString(-n)
  {
    if n < 0 then "-" + NatToString(-n) else NatToString(n)
  }

  /** The value of a string of decimal digits, read left to right. */
  function DecValue(s: string): nat
    requires AllDigits(s)
  {
    if s == [] then 0 else DecValue(s[..|s| - 1]) * 10 + DigitValue(s[|s| - 1])
  }

  lemma {:induction false} DecValueOfNatToString(n: nat)
    ensures DecValue(NatToString(n)) == n
  {
    if n >= 10 {
      var s := NatToString(n);
      assert s[..|s| - 1] == NatToString(n / 10);
      DecValueOfNatToString(n / 10);
    }
  }

  /** Distinct numbers render differently. */
  lemma {:induction false} NatToStringInjective(m: nat, n: nat)
    requires NatToString(m) == NatToString(n)
    ensures m == n
  {
    DecValueOfNatToString(m);
    DecValueOfNatToString(n);
  }

  // ---------------------------------------------------------------------
  // Decimal scanning, as sscanf("%d") does it
  // ---------------------------------------------------------------------

  function SkipSpaces(s: string): (r: string)
    ensures |r| <= |s| && r == s[|s| - |r|..]
    ensures r == [] || !IsCSpace(r[0])
  {
    if s != [] && IsCSpace(s[0]) then SkipSpaces(s[1..]) else s
  }

  /** The longest prefix of s made of decimal digits. */
  function LeadingDigits(s: string): (d: string)
    ensures |d| <= |s| && d == s[..|d|] && AllDigits(d)
    ensures |d| < |s| ==> !IsDigit(s[|d|])
  {
    if s != [] && IsDigit(s[0]) then [s[0]] + LeadingDigits(s[1..]) else []
  }

  /**
   * One "%d" conversion: leading white space is skipped, an optional sign is
   * read, then at least one digit. Returns the value and the unread rest.
   * (Values outside the range of a C int are undefined behaviour in C; the
   * model keeps the exact integer.)
   */
  function ScanInt(s: string): (r: Option<(int, string)>)
    ensures r.Some? ==> |r.value.1| < |s|
  {
    var t := SkipSpaces(s);
    if t != [] && t[0] == '-' then
      match ScanUnsigned(t[1..])
      case None => None
      case Some((v, rest)) => Some((-(v as int), rest))
    else if t != [] && t[0] == '+' then ScanUnsigned(t[1..])
    else ScanUnsigned(t)
  }

  /** The digits part of a "%d" conversion: at least one digit. */
  function ScanUnsigned(u: string): (r: Option<(int, string)>)
    ensures r.Some? ==> |r.value.1| < |u|
  {
    var d := LeadingDigits(u);
    if d == [] then None else Some((DecValue(d) as int, u[|d|..]))
  }

  lemma {:induction false} LeadingDigitsOfConcat(d: string, rest: string)
    requires AllDigits(d)
    requires rest == [] || !IsDigit(rest[0])
    ensures LeadingDigits(d + rest) == d
  {
    if d != [] {
      assert (d + rest)[1..] == d[1..] + rest;
      LeadingDigitsOfConcat(d[1..], rest);
    }
  }

  /** Scanning back what printf("%d") wrote gives the number and leaves the rest. */
  lemma ScanIntOfItoa(n: int, rest: string)
    requires rest == [] || !IsDigit(rest[0])
    ensures ScanInt(Itoa(n) + rest) == Some((n, rest))
  {
    if n < 0 {
      var m: nat := -n;
      assert Itoa(n) == "-" + NatToString(m);
      ScanIntOfNegative(m, rest);
      assert -(m as int) == n;
    } else {
      assert Itoa(n) == NatToString(n);
      ScanIntOfNatToString(n, rest);
    }
  }

  lemma ScanIntOfNatToString(m: nat, rest: string)
    requires rest == [] || !IsDigit(rest[0])
    ensures ScanInt(NatToString(m) + rest) == Some((m as int, rest))
  {
    var s := NatToString(m) + rest;
    assert s[0] == NatToString(m)[0];
    SkipSpacesNoop(s);
    ScanUnsignedOfNatToString(m, rest);
  }

  lemma ScanIntOfNegative(m: nat, rest: string)
    requires m > 0
    requires rest == [] || !IsDigit(rest[0])
    ensures ScanInt("-" + NatToString(m) + rest) == Some((-(m as int), rest))
  {
    var u := NatToString(m) + rest;
    assert "-" + NatToString(m) + rest == "-" + u;
    ScanUnsignedOfNatToString(m, rest);
    ScanIntOfMinus(u, m, rest);
  }

  /** A minus sign in front of the digits negates the value read. */
  lemma ScanIntOfMinus(u: string, v: int, rest: string)
    requires ScanUnsigned(u) == Some((v, rest))
    ensures ScanInt("-" + u) == Some((-v, rest))
  {
    var s := "-" + u;
    assert s[0] == '-' && s[1..] == u;
    SkipSpacesNoop(s);
  }

  lemma {:induction false} ScanUnsignedOfNatToString(m: nat, rest: string)
    requires rest == [] || !IsDigit(rest[0])
    ensures ScanUnsigned(NatToString(m) + rest) == Some((m as int, rest))
  {
    var ds := NatToString(m);
    DecValueOfNatToString(m);
    LeadingDigitsOfConcat(ds, rest);
    assert (ds + rest)[|ds|..] == rest;
  }

  lemma SkipSpacesNoop(s: string)
    requires s != [] && !IsCSpace(s[0])
    ensures SkipSpaces(s) == s
  {
  }

  /**
   * sscanf(s, "%d.%d…") with k conversions: the values of the conversions
   * that succeeded before the first mismatch; sscanf's return value is the
   * length of this sequence whenever it is positive.
   */
  function ScanDotted(s: string, k: nat): (fields: seq<int>)
    ensures |fields| <= k
    decreases k
  {
    if k == 0 then []
    else match ScanInt(s)
      case None => []
      case Some((v, rest)) =>
        [v] + (if k > 1 && rest != [] && rest[0] == '.' then ScanDotted(rest[1..], k - 1) else [])
  }

  /** One step of ScanDotted: a field, then a dot and the remaining fields. */
  lemma ScanDottedStep(s: string, k: nat, v: int, rest: string)
    requires ScanInt(s) == Some((v, rest))
    requires k >= 1
    ensures k == 1 || rest == [] || rest[0] != '.' ==> ScanDotted(s, k) == [v]
    ensures k > 1 && rest != [] && rest[0] == '.' ==>
              ScanDotted(s, k) == [v] + ScanDotted(rest[1..], k - 1)
  {
  }

  /** Each field takes at least one character and each separator one more. */
  lemma {:induction false} ScanDottedLength(s: string, k: nat)
    ensures |s| >= 2 * |ScanDotted(s, k)| - 1
    decreases k
  {
    if k > 0 {
      match ScanInt(s)
      case None =>
      case Some((v, rest)) =>
        if k > 1 && rest != [] && rest[0] == '.' {
          ScanDottedLength(rest[1..], k - 1);
        }
    }
  }

  /** What a "%d" conversion leaves unread is a suffix of its input. */
  lemma ScanIntRestIsSuffix(s: string)
    requires ScanInt(s).Some?
    ensures ScanInt(s).value.1 == s[|s| - |ScanInt(s).value.1|..]
  {
    var t := SkipSpaces(s);
    if t != [] && (t[0] == '-' || t[0] == '+') {
      assert t[1..] == s[|s| - |t| + 1..];
    }
  }

  /** Without a dot, sscanf reads at most one field of a "%d.%d…" format. */
  lemma ScanDottedWithoutDot(s: string, k: nat)
    requires '.' !in s
    ensures |ScanDotted(s, k)| <= 1
  {
    if k > 1 && ScanInt(s).Some? {
      var rest := ScanInt(s).value.1;
      ScanIntRestIsSuffix(s);
      if rest != [] {
        assert rest[0] == s[|s| - |rest|];
      }
    }
  }

  // ---------------------------------------------------------------------
  // C integer arithmetic
  // ---------------------------------------------------------------------

  /** C's "/" on int: the quotient truncated toward zero. */
  function CDiv(a: int, b: int): (q: int)
    requires b > 0
    ensures a >= 0 ==> q == a / b
  {
    if a >= 0 then a / b else -((-a) / b)
  }

  /** C's "%" on int: the remainder takes the sign of the dividend. */
  function CMod(a: int, b: int): (r: int)
    requires b > 0
    ensures CDiv(a, b) * b + r == a
    ensures a >= 0 ==> 0 <= r < b
    ensures a < 0 ==> -b < r <= 0
  {
    a - CDiv(a, b) * b
  }

  const UINT32_MODULUS: int := 0x1_0000_0000
  const UINT64_MODULUS: int := 0x1_0000_0000_0000_0000

  /** Conversion of an integer to a C uint32 (reduction modulo 2^32). */
  function ToUint32(x: int): (r: nat)
    ensures r < UINT32_MODULUS
    ensures 0 <= x < UINT32_MODULUS ==> r == x
  {
    x % UINT32_MODULUS
  }
}
