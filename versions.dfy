/**
 * Version numbers and their string forms (src/util.c: parse_server_version,
 * parse_program_version, parse_server_version_new, parse_program_version_new).
 * A server version string "X.Y" reads as X*10000 + Y*100; a program version
 * "X.Y.Z" reads as X*10000 + Y*100 + Z. The results are C uint32 values.
 */
module Versions {
  import opened Common

  /** The decimal fields separated by dots, as printf("%d.%d…") writes them. */
  function Dotted(fields: seq<int>): (s: string)
    requires |fields| >= 1
    ensures |s| >= 1
  {
    if |fields| == 1 then Itoa(fields[0]) else Itoa(fields[0]) + "." + Dotted(fields[1..])
  }

  /** Scanning back k fields that printf wrote separated by dots gives them all. */
  lemma {:induction false} ScanDottedOfDotted(fields: seq<int>)
    requires |fields| >= 1
    ensures ScanDotted(Dotted(fields), |fields|) == fields
  {
    if |fields| == 1 {
      ScanDottedSingle(fields);
    } else {
      ScanDottedOfDotted(fields[1..]);
      ScanDottedOfDottedStep(fields);
    }
  }

  lemma ScanDottedOfDottedStep(fields: seq<int>)
    requires |fields| > 1
    requires ScanDotted(Dotted(fields[1..]), |fields[1..]|) == fields[1..]
    ensures ScanDotted(Dotted(fields), |fields|) == fields
  {
    ScanDottedCons(fields[0], Dotted(fields[1..]), |fields|);
    assert fields == [fields[0]] + fields[1..];
  }

  lemma ScanDottedSingle(fields: seq<int>)
    requires |fields| == 1
    ensures ScanDotted(Dotted(fields), |fields|) == fields
  {
    var v := fields[0];
    var s := Itoa(v);
    assert s == s + [];
    ScanIntOfItoa(v, []);
    ScanDottedStep(s, 1, v, []);
  }

  lemma ScanDottedCons(head: int, tail: string, k: nat)
    requires k > 1
    ensures ScanDotted(Itoa(head) + "." + tail, k) == [head] + ScanDotted(tail, k - 1)
  {
    var rest := "." + tail;
    var s := Itoa(head) + rest;
    assert s == Itoa(head) + "." + tail;
    ScanIntOfItoa(head, rest);
    ScanDottedStep(s, k, head, rest);
    assert rest[1..] == tail;
  }

  // ---------------------------------------------------------------------
  // Strings to numbers
  // ---------------------------------------------------------------------

  /** The number of a version: major * 10000 + minor * 100 + micro, as a C uint32. */
  function VersionNumber(fields: seq<int>): (r: nat)
    requires |fields| == 3
    ensures r < UINT32_MODULUS
  {
    ToUint32(fields[0] * 10000 + fields[1] * 100 + fields[2])
  }

  /**
   * parse_server_version: "%d.%d" must match both fields, otherwise the
   * result is 0 (and a warning is logged).
   */
  function ParseServerVersion(version: string): (r: nat)
    ensures r < UINT32_MODULUS
  {
    var fields := ScanDotted(version, 2);
    if |fields| == 2 then VersionNumber(fields + [0]) else 0
  }

  /**
   * parse_program_version: a missing or empty string gives 0; otherwise
   * "%d.%d.%d" must match all three fields, or the result is 0.
   */
  function ParseProgramVersion(version: Option<string>): (r: nat)
    ensures r < UINT32_MODULUS
    ensures version.None? || version.value == [] ==> r == 0
  {
    if version.None? || version.value == [] then 0
    else
      var fields := ScanDotted(version.value, 3);
      if |fields| == 3 then VersionNumber(fields) else 0
  }

  // ---------------------------------------------------------------------
  // Numbers to strings
  // ---------------------------------------------------------------------

  /**
   * parse_server_version_new: for a version number of at least 100000 the
   * string "major.minor" with major = n / 10000 and minor = n % 1000;
   * below that, no string (NULL).
   */
  function ServerVersionNew(n: nat): (r: Option<string>)
    requires n < UINT32_MODULUS
    ensures r.None? <==> n < 100000
  {
    if n >= 100000 then Some(Dotted([n / 10000, n % 1000])) else None
  }

  /** The string written for a server version number shows its two fields. */
  lemma ServerVersionNewFields(n: nat)
    requires 100000 <= n < UINT32_MODULUS
    ensures ServerVersionNew(n).Some?
    ensures ScanDotted(ServerVersionNew(n).value, 2) == [n / 10000, n % 1000]
  {
    ScanDottedOfDotted([n / 10000, n % 1000]);
  }

  /**
   * Reading that string back with parse_server_version does not give the
   * number again: the minor field is taken as hundreds (13.9 reads as
   * 130900, not 130009).
   */
  lemma ParseServerVersionNew(n: nat)
    requires 100000 <= n < UINT32_MODULUS
    ensures ServerVersionNew(n).Some?
    ensures ParseServerVersion(ServerVersionNew(n).value) == VersionNumber([n / 10000, n % 1000, 0])
    ensures n < 4294000000 ==>
              ParseServerVersion(ServerVersionNew(n).value) == (n / 10000) * 10000 + (n % 1000) * 100
  {
    ServerVersionNewFields(n);
    assert [n / 10000, n % 1000] + [0] == [n / 10000, n % 1000, 0];
  }

  /** A server version string written in the "X.Y" form reads back as X*10000 + Y*100. */
  lemma ParseServerVersionOfDotted(major: nat, minor: nat)
    requires major * 10000 + minor * 100 < UINT32_MODULUS
    ensures ParseServerVersion(Dotted([major, minor])) == major * 10000 + minor * 100
  {
    ScanDottedOfDotted([major, minor]);
  }

  /**
   * Any string that starts with "major.minor" (whatever follows the minor
   * field, as long as it is not a further digit) parses to
   * major*10000 + minor*100 as a uint32.
   */
  lemma ParseServerVersionOfPrefix(major: int, minor: int, rest: string)
    requires rest == [] || !IsDigit(rest[0])
    ensures ParseServerVersion(Itoa(major) + "." + Itoa(minor) + rest) == VersionNumber([major, minor, 0])
    ensures 0 <= major * 10000 + minor * 100 < UINT32_MODULUS ==>
              ParseServerVersion(Itoa(major) + "." + Itoa(minor) + rest) == major * 10000 + minor * 100
  {
    ScanTwoFields(major, minor, rest);
    assert [major, minor] + [0] == [major, minor, 0];
  }

  /** A server version string without a dot does not parse: the result is 0. */
  lemma ParseServerVersionWithoutDot(version: string)
    requires '.' !in version
    ensures ParseServerVersion(version) == 0
  {
    ScanDottedWithoutDot(version, 2);
  }

  /** A program version string without a dot does not parse: the result is 0. */
  lemma ParseProgramVersionWithoutDot(version: string)
    requires '.' !in version
    ensures ParseProgramVersion(Some(version)) == 0
  {
    ScanDottedWithoutDot(version, 3);
  }

  /**
   * A program version needs all three fields: "major.minor" followed by
   * anything but a digit or a further dot parses to 0.
   */
  lemma ParseProgramVersionOfTwoFields(major: int, minor: int, rest: string)
    requires rest == [] || (!IsDigit(rest[0]) && rest[0] != '.')
    ensures ParseProgramVersion(Some(Itoa(major) + "." + Itoa(minor) + rest)) == 0
  {
    var tail := Itoa(minor) + rest;
    assert Itoa(major) + "." + Itoa(minor) + rest == Itoa(major) + "." + tail;
    ScanDottedCons(major, tail, 3);
    ScanIntOfItoa(minor, rest);
    ScanDottedStep(tail, 2, minor, rest);
  }

  /**
   * Any string that starts with "major.minor.micro" (followed by anything but
   * a further digit) parses to major*10000 + minor*100 + micro as a uint32.
   */
  lemma ParseProgramVersionOfPrefix(major: int, minor: int, micro: int, rest: string)
    requires rest == [] || !IsDigit(rest[0])
    ensures ParseProgramVersion(Some(Itoa(major) + "." + Itoa(minor) + "." + Itoa(micro) + rest))
              == VersionNumber([major, minor, micro])
    ensures 0 <= major * 10000 + minor * 100 + micro < UINT32_MODULUS ==>
              ParseProgramVersion(Some(Itoa(major) + "." + Itoa(minor) + "." + Itoa(micro) + rest))
                == major * 10000 + minor * 100 + micro
  {
    ScanThreeFields(major, minor, micro, rest);
  }

  lemma ScanThreeFields(major: int, minor: int, micro: int, rest: string)
    requires rest == [] || !IsDigit(rest[0])
    ensures ScanDotted(Itoa(major) + "." + Itoa(minor) + "." + Itoa(micro) + rest, 3) == [major, minor, micro]
  {
    var tail := Itoa(minor) + "." + Itoa(micro) + rest;
    DotRegroup(Itoa(major), Itoa(minor), Itoa(micro), rest);
    ScanTwoFields(minor, micro, rest);
    ScanDottedCons(major, tail, 3);
  }

  lemma DotRegroup(a: string, b: string, c: string, rest: string)
    ensures a + "." + b + "." + c + rest == a + "." + (b + "." + c + rest)
  {
  }

  lemma ScanTwoFields(major: int, minor: int, rest: string)
    requires rest == [] || !IsDigit(rest[0])
    ensures ScanDotted(Itoa(major) + "." + Itoa(minor) + rest, 2) == [major, minor]
  {
    var tail := Itoa(minor) + rest;
    assert Itoa(major) + "." + Itoa(minor) + rest == Itoa(major) + "." + tail;
    ScanDottedCons(major, tail, 2);
    ScanIntOfItoa(minor, rest);
    ScanDottedStep(tail, 1, minor, rest);
  }

  /** The three fields of a program version number: major, minor, micro. */
  function ProgramFields(v: nat): (fields: seq<int>)
    ensures |fields| == 3 && fields[0] * 10000 + fields[1] * 100 + fields[2] == v
    ensures 0 <= fields[1] < 100 && 0 <= fields[2] < 100
  {
    [v / 10000, (v / 100) % 100, v % 100]
  }

  /**
   * parse_program_version_new as written: its guard tests the local result
   * pointer, which is still NULL at that point, instead of the argument;
   * the branch that would format the version is never taken, and NULL is
   * returned for every argument.
   */
  function ProgramVersionNewAsWritten(v: nat): (r: Option<string>)
    requires v < UINT32_MODULUS
    ensures r.None?
  {
    None
  }

  /**
   * parse_program_version_new with the guard on the argument but the buffer
   * size still given as sizeof(100), the size of an int: snprintf keeps at
   * most three characters and the terminator.
   */
  function ProgramVersionNewTruncated(v: nat): (r: Option<string>)
    requires v < UINT32_MODULUS
    ensures r.Some? <==> v > 0
    ensures r.Some? ==> |r.value| <= 3
  {
    if v > 0 then
      var s := Dotted(ProgramFields(v));
      Some(if |s| <= 3 then s else s[..3])
    else None
  }

  /**
   * parse_program_version_new as evidently intended: "major.minor.micro"
   * for a positive version number, no string for 0.
   */
  function ProgramVersionNew(v: nat): (r: Option<string>)
    requires v < UINT32_MODULUS
    ensures r.Some? <==> v > 0
  {
    if v > 0 then Some(Dotted(ProgramFields(v))) else None
  }

  /** Round trip: parse_program_version reads back every number the corrected writer renders. */
  lemma ParseProgramVersionNew(v: nat)
    requires v < UINT32_MODULUS
    ensures ParseProgramVersion(ProgramVersionNew(v)) == v
  {
    if v > 0 {
      ScanDottedOfDotted(ProgramFields(v));
    }
  }

  /** As written, the round trip fails for every version but 0. */
  lemma ProgramVersionNewAsWrittenLosesVersion(v: nat)
    requires 0 < v < UINT32_MODULUS
    ensures ParseProgramVersion(ProgramVersionNewAsWritten(v)) == 0 != v
  {
  }

  /**
   * With the guard fixed but the short buffer, no version reads back:
   * three fields need at least five characters.
   */
  lemma ProgramVersionNewTruncatedLosesVersion(v: nat)
    requires 0 < v < UINT32_MODULUS
    ensures ParseProgramVersion(ProgramVersionNewTruncated(v)) == 0 != v
  {
    ScanDottedLength(ProgramVersionNewTruncated(v).value, 3);
  }
}
