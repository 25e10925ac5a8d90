/**
 * version_to_num of the test helpers (tests/helpers/ptrack_helpers.py):
 * the number a version string such as "12.0" or "2.4.15" stands for, two
 * decimal places per dot-separated part, so that versions compare as
 * numbers.
 */
module VersionNum {
  import opened Common
  import opened PyText

  /** int() of a string with no digit left raises ValueError. */
  datatype Failure = ValueError

  /** re.sub(r"[^\d]", "", part): the decimal digits of part, in order. */
  function Digits(s: string): (d: string)
    ensures AllDigits(d) && |d| <= |s|
    ensures AllDigits(s) ==> d == s
  {
    if s == [] then []
    else
      var init := Digits(s[..|s| - 1]);
      assert forall i :: 0 <= i < |s| - 1 ==> s[i] == s[..|s| - 1][i];
      if IsDigit(s[|s| - 1]) then init + [s[|s| - 1]] else init
  }

  /** Digits finds nothing exactly when the part has no digit. */
  lemma {:induction false} DigitsEmpty(s: string)
    ensures Digits(s) == [] <==> forall i :: 0 <= i < |s| ==> !IsDigit(s[i])
  {
    if s != [] {
      DigitsEmpty(s[..|s| - 1]);
      assert forall i :: 0 <= i < |s| - 1 ==> s[i] == s[..|s| - 1][i];
    }
  }

  /** The parts padded with "0" until there are three. */
  function PadParts(parts: seq<string>): (r: seq<string>)
    ensures |r| == if |parts| < 3 then 3 else |parts|
    ensures r[..|parts|] == parts
    ensures forall i :: |parts| <= i < |r| ==> r[i] == "0"
    decreases 3 - |parts|
  {
    if |parts| < 3 then
      var r := PadParts(parts + ["0"]);
      assert r[..|parts|] == r[..|parts| + 1][..|parts|];
      r
    else parts
  }

  /** The loop over the parts: num * 100 plus the digits of each part, failing on a part without digits. */
  function PartsValue(parts: seq<string>): Result<nat, Failure> {
    if parts == [] then Ok(0)
    else
      match PartsValue(parts[..|parts| - 1])
      case Err(e) => Err(e)
      case Ok(num) =>
        var digits := Digits(parts[|parts| - 1]);
        if digits == [] then Err(ValueError) else Ok(num * 100 + DecValue(digits))
  }

  /** version_to_num: None and "" are 0. */
  function VersionToNumSpec(version: Option<string>): Result<nat, Failure> {
    if version == None || version == Some("") then Ok(0)
    else PartsValue(PadParts(Split(version.value, '.')))
  }

  method VersionToNum(version: Option<string>) returns (r: Result<nat, Failure>)
    ensures r == VersionToNumSpec(version)
  {
    if version == None || version == Some("") {
      return Ok(0);
    }
    var parts := PadToThree(Split(version.value, '.'));
    r := PartsToNum(parts);
  }

  /** The loop appending "0" parts. */
  method PadToThree(split: seq<string>) returns (parts: seq<string>)
    ensures parts == PadParts(split)
  {
    parts := split;
    while |parts| < 3
      invariant PadParts(parts) == PadParts(split)
      decreases 3 - |parts|
    {
      parts := parts + ["0"];
    }
  }

  /** The loop folding the parts into num. */
  method PartsToNum(parts: seq<string>) returns (r: Result<nat, Failure>)
    ensures r == PartsValue(parts)
  {
    var num := 0;
    for j := 0 to |parts|
      invariant PartsValue(parts[..j]) == Ok(num)
    {
      assert parts[..j + 1][..j] == parts[..j];
      var digits := Digits(parts[j]);
      if digits == [] {
        ErrorStays(parts, j + 1);
        return Err(ValueError);
      }
      num := num * 100 + DecValue(digits);
    }
    assert parts[..|parts|] == parts;
    r := Ok(num);
  }

  /** Once a part has no digits, the whole conversion fails. */
  lemma {:induction false} ErrorStays(parts: seq<string>, j: nat)
    requires j <= |parts|
    requires PartsValue(parts[..j]) == Err(ValueError)
    ensures PartsValue(parts) == Err(ValueError)
    decreases |parts| - j
  {
    if j < |parts| {
      assert parts[..j + 1][..j] == parts[..j];
      ErrorStays(parts, j + 1);
    } else {
      assert parts[..j] == parts;
    }
  }

  // ---------------------------------------------------------------------
  // Versions written out
  // ---------------------------------------------------------------------

  /** Parts padded with 0 until there are three, as the conversion pads them. */
  function PadZeros(ps: seq<nat>): (r: seq<nat>)
    ensures |r| == if |ps| < 3 then 3 else |ps|
    ensures r[..|ps|] == ps
    ensures forall i :: |ps| <= i < |r| ==> r[i] == 0
    decreases 3 - |ps|
  {
    if |ps| < 3 then
      var r := PadZeros(ps + [0]);
      assert r[..|ps|] == r[..|ps| + 1][..|ps|];
      r
    else ps
  }

  /** The number for the given parts: two decimal places per part. */
  function Num(ps: seq<nat>): nat {
    if ps == [] then 0 else Num(ps[..|ps| - 1]) * 100 + ps[|ps| - 1]
  }

  function Rendered(ps: seq<nat>): seq<string> {
    seq(|ps|, i requires 0 <= i < |ps| => NatToString(ps[i]))
  }

  /** The version string with the given parts, as "12.0" or "2.4.15". */
  function Format(ps: seq<nat>): (v: string)
    requires |ps| >= 1
    ensures v != ""
  {
    var parts := Rendered(ps);
    if |parts| == 1 then parts[0] else parts[0] + ['.'] + JoinOn(parts[1..], '.')
  }

  lemma {:induction false} PartsValueOfRendered(ps: seq<nat>)
    ensures PartsValue(Rendered(ps)).Ok? && PartsValue(Rendered(ps)).value == Num(ps)
  {
    if ps != [] {
      var init, last := ps[..|ps| - 1], ps[|ps| - 1];
      var parts, s := Rendered(ps), NatToString(last);
      assert parts[..|ps| - 1] == Rendered(init);
      assert parts[|ps| - 1] == s;
      PartsValueOfRendered(init);
      assert Digits(parts[|parts| - 1]) == s;
      PartsValueStep(parts, Num(init));
      DecValueOfNatToString(last);
      assert DecValue(s) == last;
      assert Num(ps) == Num(init) * 100 + last;
    } else {
      assert Rendered(ps) == [];
    }
  }

  lemma PartsValueStep(parts: seq<string>, num: nat)
    requires parts != [] && PartsValue(parts[..|parts| - 1]) == Ok(num)
    requires AllDigits(parts[|parts| - 1]) && parts[|parts| - 1] != []
    ensures PartsValue(parts).Ok?
    ensures PartsValue(parts).value == num * 100 + DecValue(parts[|parts| - 1])
  {
  }

  /** Padding the rendered parts with "0" renders the parts padded with 0. */
  lemma {:induction false} PadRendered(ps: seq<nat>)
    ensures PadParts(Rendered(ps)) == Rendered(PadZeros(ps))
    decreases 3 - |ps|
  {
    if |ps| < 3 {
      assert Rendered(ps) + ["0"] == Rendered(ps + [0]);
      PadRendered(ps + [0]);
    }
  }

  /** A written-out version converts to the number of its parts, padded to three. */
  lemma VersionToNumOfFormat(ps: seq<nat>)
    requires |ps| >= 1
    ensures VersionToNumSpec(Some(Format(ps))).Ok?
    ensures VersionToNumSpec(Some(Format(ps))).value == Num(PadZeros(ps))
  {
    SplitFormat(ps);
    PadRendered(ps);
    PartsValueOfRendered(PadZeros(ps));
  }

  /** The parts of a written-out version are its rendered numbers. */
  lemma SplitFormat(ps: seq<nat>)
    requires |ps| >= 1
    ensures Split(Format(ps), '.') == Rendered(ps)
  {
    var parts := Rendered(ps);
    assert forall i :: 0 <= i < |parts| ==> '.' !in parts[i] by {
      forall i | 0 <= i < |parts| ensures '.' !in parts[i] {
        assert AllDigits(parts[i]);
      }
    }
    assert JoinOn(parts, '.') == Format(ps);
    SplitJoined(parts, '.');
  }

  // ---------------------------------------------------------------------
  // Ordering
  // ---------------------------------------------------------------------

  /** p comes before q part by part: the first part where they differ is smaller in p. */
  predicate LexLess(p: seq<nat>, q: seq<nat>) {
    exists k :: 0 <= k < |p| && k < |q| && p[..k] == q[..k] && p[k] < q[k]
  }

  predicate PartsBelow100(ps: seq<nat>) {
    forall i :: 0 <= i < |ps| ==> ps[i] < 100
  }

  lemma {:induction false} NumMonotone(p: seq<nat>, q: seq<nat>)
    requires |p| == |q| && PartsBelow100(p) && PartsBelow100(q)
    requires LexLess(p, q)
    ensures Num(p) < Num(q)
  {
    var k :| 0 <= k < |p| && k < |q| && p[..k] == q[..k] && p[k] < q[k];
    var n := |p| - 1;
    if k == n {
      assert p[..n] == q[..n];
    } else {
      assert p[..n][..k] == q[..n][..k] && p[..n][k] < q[..n][k];
      NumMonotone(p[..n], q[..n]);
    }
  }

  lemma {:induction false} Trichotomy(p: seq<nat>, q: seq<nat>)
    requires |p| == |q|
    ensures p == q || LexLess(p, q) || LexLess(q, p)
  {
    if p != [] {
      var n := |p| - 1;
      if p[..n] == q[..n] {
        if p[n] == q[n] {
          assert p == p[..n] + [p[n]] && q == q[..n] + [q[n]];
        } else {
          assert p[..n] == q[..n];
        }
      } else {
        Trichotomy(p[..n], q[..n]);
        if LexLess(p[..n], q[..n]) {
          var k :| 0 <= k < n && p[..n][..k] == q[..n][..k] && p[..n][k] < q[..n][k];
          assert p[..n][..k] == p[..k] && q[..n][..k] == q[..k];
          assert p[..k] == q[..k] && p[k] < q[k];
        } else {
          var k :| 0 <= k < n && q[..n][..k] == p[..n][..k] && q[..n][k] < p[..n][k];
          assert p[..n][..k] == p[..k] && q[..n][..k] == q[..k];
          assert q[..k] == p[..k] && q[k] < p[k];
        }
      }
    }
  }

  /** With every part below 100, numbers compare as the parts do. */
  lemma NumOrder(p: seq<nat>, q: seq<nat>)
    requires |p| == |q| && PartsBelow100(p) && PartsBelow100(q)
    ensures Num(p) < Num(q) <==> LexLess(p, q)
  {
    Trichotomy(p, q);
    if LexLess(p, q) {
      NumMonotone(p, q);
    } else if LexLess(q, p) {
      NumMonotone(q, p);
    }
  }

  /**
   * Versions of up to three parts, each below 100, convert to numbers that
   * compare as the versions do, missing parts counting as 0.
   */
  lemma VersionOrder(p: seq<nat>, q: seq<nat>)
    requires 1 <= |p| <= 3 && 1 <= |q| <= 3
    requires PartsBelow100(p) && PartsBelow100(q)
    ensures VersionToNumSpec(Some(Format(p))).Ok? && VersionToNumSpec(Some(Format(q))).Ok?
    ensures VersionToNumSpec(Some(Format(p))).value < VersionToNumSpec(Some(Format(q))).value
            <==> LexLess(PadZeros(p), PadZeros(q))
  {
    VersionToNumOfFormat(p);
    VersionToNumOfFormat(q);
    var pp, qq := PadZeros(p), PadZeros(q);
    assert forall i :: 0 <= i < |pp| ==> pp[i] < 100 by {
      forall i | 0 <= i < |pp| ensures pp[i] < 100 {
        if i < |p| { assert pp[i] == pp[..|p|][i]; }
      }
    }
    assert forall i :: 0 <= i < |qq| ==> qq[i] < 100 by {
      forall i | 0 <= i < |qq| ensures qq[i] < 100 {
        if i < |q| { assert qq[i] == qq[..|q|][i]; }
      }
    }
    NumOrder(pp, qq);
  }

  /** The number of a two-part version: the missing third part counts as 0. */
  lemma NumOfTwo(p: seq<nat>)
    requires |p| == 2
    ensures Num(PadZeros(p)) == p[0] * 10000 + p[1] * 100
  {
    var pp := PadZeros(p);
    assert pp == p + [0];
    assert pp[..2] == p && p[..1] == [p[0]] && [p[0]][..0] == [];
    assert Num([p[0]]) == p[0];
    assert Num(p) == p[0] * 100 + p[1];
    assert Num(pp) == Num(p) * 100;
  }

  /** A part of 100 or more spills into the part before it: "1.100" and "2.0" convert alike. */
  lemma WidePartsCollide(p: seq<nat>, q: seq<nat>)
    requires |p| == 2 && |q| == 2
    requires q[0] == p[0] + 1 && p[1] == q[1] + 100
    ensures LexLess(p, q)
    ensures VersionToNumSpec(Some(Format(p))).Ok? && VersionToNumSpec(Some(Format(q))).Ok?
    ensures VersionToNumSpec(Some(Format(p))).value == VersionToNumSpec(Some(Format(q))).value
  {
    assert p[..0] == q[..0];
    VersionToNumOfFormat(p);
    VersionToNumOfFormat(q);
    NumOfTwo(p);
    NumOfTwo(q);
  }
}
