/**
 * The Python string methods the test helpers rewrite text with:
 * str.splitlines(), str.strip(), str.partition(), str.split() and
 * str.startswith(), together with the line joining the helpers do by
 * appending "\n" after each line.
 */
module PyText {
  import opened Common

  /** str.startswith. */
  predicate StartsWith(s: string, prefix: string) {
    |prefix| <= |s| && s[..|prefix|] == prefix
  }

  // ---------------------------------------------------------------------
  // Lines
  // ---------------------------------------------------------------------

  /** The characters str.splitlines() breaks at; "\r\n" counts as one break. */
  predicate IsLineBreak(c: char) {
    c == '\n' || c == '\r' || c == '\U{0B}' || c == '\U{0C}' || c == '\U{1C}' || c == '\U{1D}' || c == '\U{1E}'
    || c == '\U{85}' || c == '\U{2028}' || c == '\U{2029}'
  }

  predicate NoBreaks(s: string) {
    forall i :: 0 <= i < |s| ==> !IsLineBreak(s[i])
  }

  /** The length of the first line: the index of the first break, or |s|. */
  function LineEnd(s: string): (n: nat)
    ensures n <= |s| && NoBreaks(s[..n])
    ensures n < |s| ==> IsLineBreak(s[n])
  {
    if s == [] || IsLineBreak(s[0]) then 0
    else
      assert forall i :: 1 <= i < 1 + LineEnd(s[1..]) ==> s[i] == s[1..][i - 1];
      1 + LineEnd(s[1..])
  }

  /** What follows the first line and its break. */
  function AfterLine(s: string): (rest: string)
    ensures |rest| < |s| || s == []
  {
    var n := LineEnd(s);
    if n == |s| then []
    else if s[n] == '\r' && n + 1 < |s| && s[n + 1] == '\n' then s[n + 2..]
    else s[n + 1..]
  }

  /** str.splitlines(): no empty line after a final break, and none at all for "". */
  function SplitLines(s: string): (lines: seq<string>)
    ensures forall i :: 0 <= i < |lines| ==> NoBreaks(lines[i])
    decreases |s|
  {
    if s == [] then [] else [s[..LineEnd(s)]] + SplitLines(AfterLine(s))
  }

  /** Each line followed by "\n", as the helpers write files back. */
  function JoinLines(lines: seq<string>): string {
    if lines == [] then "" else lines[0] + "\n" + JoinLines(lines[1..])
  }

  lemma {:induction false} JoinLinesAppend(lines: seq<string>, line: string)
    ensures JoinLines(lines + [line]) == JoinLines(lines) + line + "\n"
  {
    if lines != [] {
      assert (lines + [line])[1..] == lines[1..] + [line];
      JoinLinesAppend(lines[1..], line);
    }
  }

  lemma {:induction false} JoinLinesConcat(a: seq<string>, b: seq<string>)
    ensures JoinLines(a + b) == JoinLines(a) + JoinLines(b)
  {
    if a != [] {
      assert (a + b)[1..] == a[1..] + b;
      JoinLinesConcat(a[1..], b);
    } else {
      assert a + b == b;
    }
  }

  lemma LineEndOfLine(line: string, rest: string)
    requires NoBreaks(line)
    ensures LineEnd(line + "\n" + rest) == |line|
    decreases |line|
  {
    if line != [] {
      assert (line + "\n" + rest)[1..] == line[1..] + "\n" + rest;
      LineEndOfLine(line[1..], rest);
    }
  }

  /** Lines without breaks, joined, split back into themselves. */
  lemma {:induction false} SplitJoinedLines(lines: seq<string>)
    requires forall i :: 0 <= i < |lines| ==> NoBreaks(lines[i])
    ensures SplitLines(JoinLines(lines)) == lines
  {
    if lines != [] {
      var s := JoinLines(lines);
      assert s == lines[0] + "\n" + JoinLines(lines[1..]);
      LineEndOfLine(lines[0], JoinLines(lines[1..]));
      assert s[..|lines[0]|] == lines[0];
      assert AfterLine(s) == JoinLines(lines[1..]);
      SplitJoinedLines(lines[1..]);
    }
  }

  // ---------------------------------------------------------------------
  // strip and partition
  // ---------------------------------------------------------------------

  /** The characters str.isspace() accepts. */
  predicate IsSpace(c: char) {
    c == ' ' || '\t' <= c <= '\r' || '\U{1C}' <= c <= '\U{1F}' || c == '\U{85}' || c == '\U{A0}' || c == '\U{1680}'
    || '\U{2000}' <= c <= '\U{200A}' || c == '\U{2028}' || c == '\U{2029}' || c == '\U{202F}' || c == '\U{205F}'
    || c == '\U{3000}'
  }

  /** The characters a strip removes: white space (no argument), or the one character given. */
  datatype CharClass = Spaces | Char(c: char)

  predicate In(c: char, cs: CharClass) {
    match cs
    case Spaces => IsSpace(c)
    case Char(x) => c == x
  }

  function StripLeft(s: string, cs: CharClass): (r: string)
    ensures |r| <= |s|
    ensures r == [] || !In(r[0], cs)
  {
    if s != [] && In(s[0], cs) then StripLeft(s[1..], cs) else s
  }

  function StripRight(s: string, cs: CharClass): (r: string)
    ensures |r| <= |s|
    ensures r == [] || !In(r[|r| - 1], cs)
  {
    if s != [] && In(s[|s| - 1], cs) then StripRight(s[..|s| - 1], cs) else s
  }

  /** str.strip(chars): the characters of cs removed from both ends. */
  function Strip(s: string, cs: CharClass): (r: string)
    ensures r == [] || (!In(r[0], cs) && !In(r[|r| - 1], cs))
  {
    var l := StripLeft(s, cs);
    StripRightPrefix(l, cs);
    StripRight(l, cs)
  }

  /** StripLeft removes nothing but characters of cs. */
  lemma {:induction false} StripLeftRemovesOnly(s: string, cs: CharClass)
    ensures forall i :: 0 <= i < |s| - |StripLeft(s, cs)| ==> In(s[i], cs)
  {
    if s != [] && In(s[0], cs) {
      StripLeftRemovesOnly(s[1..], cs);
      assert forall i :: 1 <= i < |s| - |StripLeft(s, cs)| ==> s[i] == s[1..][i - 1];
    }
  }

  /** StripRight removes nothing but characters of cs. */
  lemma {:induction false} StripRightRemovesOnly(s: string, cs: CharClass)
    ensures forall i :: |StripRight(s, cs)| <= i < |s| ==> In(s[i], cs)
  {
    if s != [] && In(s[|s| - 1], cs) {
      StripRightRemovesOnly(s[..|s| - 1], cs);
    }
  }

  /** StripLeft leaves a suffix of s. */
  lemma {:induction false} StripLeftSuffix(s: string, cs: CharClass)
    ensures StripLeft(s, cs) == s[|s| - |StripLeft(s, cs)|..]
  {
    if s != [] && In(s[0], cs) {
      StripLeftSuffix(s[1..], cs);
    }
  }

  /** StripRight leaves a prefix of s. */
  lemma {:induction false} StripRightPrefix(s: string, cs: CharClass)
    ensures StripRight(s, cs) == s[..|StripRight(s, cs)|]
  {
    if s != [] && In(s[|s| - 1], cs) {
      StripRightPrefix(s[..|s| - 1], cs);
    }
  }

  /** Stripping only removes characters: what is left lies inside s. */
  lemma StripInside(s: string, cs: CharClass)
    ensures forall i :: 0 <= i < |Strip(s, cs)| ==> Strip(s, cs)[i] == s[|s| - |StripLeft(s, cs)| + i]
  {
    var l := StripLeft(s, cs);
    StripLeftSuffix(s, cs);
    StripRightPrefix(l, cs);
    assert forall i :: 0 <= i < |l| ==> l[i] == s[|s| - |l| + i];
  }

  lemma StripKeepsAbsent(s: string, cs: CharClass, c: char)
    ensures c !in s ==> c !in Strip(s, cs)
  {
    StripInside(s, cs);
  }

  lemma StripKeepsNoBreaks(s: string, cs: CharClass)
    ensures NoBreaks(s) ==> NoBreaks(Strip(s, cs))
  {
    StripInside(s, cs);
  }

  /** A string that strip leaves alone. */
  predicate Unpadded(s: string, cs: CharClass) {
    s == [] || (!In(s[0], cs) && !In(s[|s| - 1], cs))
  }

  lemma StripUnpadded(s: string, cs: CharClass)
    requires Unpadded(s, cs)
    ensures Strip(s, cs) == s
  {
  }

  /** The position of the first c in s, if any. */
  function Find(s: string, c: char): (r: Option<nat>)
    ensures r.Some? ==> r.value < |s| && s[r.value] == c && c !in s[..r.value]
    ensures r.None? ==> c !in s
  {
    if s == [] then None
    else if s[0] == c then Some(0)
    else match Find(s[1..], c)
      case None => None
      case Some(i) => Some(i + 1)
  }

  /** str.partition(c), keeping the parts before and after the first c. */
  function Partition(s: string, c: char): (parts: (string, string))
    ensures c !in s ==> parts == (s, "")
    ensures c in s ==> parts.0 + [c] + parts.1 == s && c !in parts.0
  {
    match Find(s, c)
    case None => (s, "")
    case Some(i) =>
      assert s == s[..i] + [c] + s[i + 1..];
      (s[..i], s[i + 1..])
  }

  /** Both parts of a line without breaks are without breaks. */
  lemma PartitionNoBreaks(s: string, c: char)
    ensures NoBreaks(s) ==> NoBreaks(Partition(s, c).0) && NoBreaks(Partition(s, c).1)
  {
    var parts := Partition(s, c);
    if c in s {
      assert forall i :: 0 <= i < |parts.0| ==> parts.0[i] == s[i];
      assert forall i :: 0 <= i < |parts.1| ==> parts.1[i] == s[|parts.0| + 1 + i];
    }
  }

  /** str.split(c): always one more piece than there are separators. */
  function Split(s: string, c: char): (parts: seq<string>)
    ensures |parts| >= 1
    ensures forall i :: 0 <= i < |parts| ==> c !in parts[i]
    decreases |s|
  {
    match Find(s, c)
    case None => [s]
    case Some(i) => [s[..i]] + Split(s[i + 1..], c)
  }

  /** The pieces joined by c, as c.join(parts). */
  function JoinOn(parts: seq<string>, c: char): string
    requires |parts| >= 1
  {
    if |parts| == 1 then parts[0] else parts[0] + [c] + JoinOn(parts[1..], c)
  }

  lemma FindAfter(a: string, c: char, b: string)
    requires c !in a
    ensures Find(a + [c] + b, c) == Some(|a|)
    decreases |a|
  {
    if a != [] {
      assert (a + [c] + b)[1..] == a[1..] + [c] + b;
      FindAfter(a[1..], c, b);
    }
  }

  /** Pieces without the separator, joined, split back into themselves. */
  lemma {:induction false} SplitJoined(parts: seq<string>, c: char)
    requires |parts| >= 1
    requires forall i :: 0 <= i < |parts| ==> c !in parts[i]
    ensures Split(JoinOn(parts, c), c) == parts
  {
    if |parts| > 1 {
      SplitJoined(parts[1..], c);
      SplitJoinedStep(parts, c);
    }
  }

  lemma SplitJoinedStep(parts: seq<string>, c: char)
    requires |parts| > 1 && c !in parts[0]
    requires Split(JoinOn(parts[1..], c), c) == parts[1..]
    ensures Split(JoinOn(parts, c), c) == parts
  {
    var s, rest := JoinOn(parts, c), JoinOn(parts[1..], c);
    FindAfter(parts[0], c, rest);
    assert s[..|parts[0]|] == parts[0];
    assert s[|parts[0]| + 1..] == rest;
    assert parts == [parts[0]] + parts[1..];
  }
}
