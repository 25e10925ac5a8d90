/**
 * Backup statuses and their names (src/util.c: statusName, status2str,
 * status2str_color, str2status). A status is the C enum value; the names
 * table is indexed by it.
 */
module Status {

  const INVALID: int := 0
  const OK: int := 1
  const ERROR: int := 2
  const RUNNING: int := 3
  const MERGING: int := 4
  const MERGED: int := 5
  const DELETING: int := 6
  const DELETED: int := 7
  const DONE: int := 8
  const ORPHAN: int := 9
  const CORRUPT: int := 10

  /** statusName[], indexed by the enum value. */
  const NAMES: seq<string> := [
    "UNKNOWN", "OK", "ERROR", "RUNNING", "MERGING", "MERGED",
    "DELETING", "DELETED", "DONE", "ORPHAN", "CORRUPT"
  ]

  predicate InRange(status: int) { INVALID <= status <= CORRUPT }

  /** status2str: the status's name, or "UNKNOWN" for a value outside the enum. */
  function StatusToStr(status: int): (name: string)
    ensures InRange(status) ==> name == NAMES[status]
    ensures !InRange(status) ==> name == NAMES[INVALID]
  {
    if status < INVALID || CORRUPT < status then "UNKNOWN" else NAMES[status]
  }

  // ---------------------------------------------------------------------
  // Colours of status2str_color
  // ---------------------------------------------------------------------

  datatype Colour = YellowBold | RedBold | GreenBold

  datatype ColouredName = ColouredName(colour: Colour, name: string)

  /**
   * status2str_color: the name between a colour escape and a reset. Only the
   * colour bucket and the name are modelled; the escape sequences are not.
   * The source indexes statusName[] without a range check, so only enum
   * values are accepted.
   */
  function StatusToColouredStr(status: int): (r: ColouredName)
    requires InRange(status)
    ensures r.name == StatusToStr(status)
    ensures r.colour == RedBold <==> status in {CORRUPT, ERROR, ORPHAN}
    ensures r.colour == YellowBold <==> status in {INVALID, MERGING, MERGED, DELETING, DELETED}
    ensures r.colour == GreenBold <==> status in {OK, RUNNING, DONE}
  {
    if status == INVALID then ColouredName(YellowBold, "UNKNOWN")
    else if status == CORRUPT || status == ERROR || status == ORPHAN then
      ColouredName(RedBold, NAMES[status])
    else if status == MERGING || status == MERGED || status == DELETING || status == DELETED then
      ColouredName(YellowBold, NAMES[status])
    else ColouredName(GreenBold, NAMES[status])
  }

  // ---------------------------------------------------------------------
  // str2status
  // ---------------------------------------------------------------------

  /** ASCII tolower, as pg_strcasecmp applies it. */
  function Lower(c: char): char {
    if 'A' <= c <= 'Z' then (c as int - 'A' as int + 'a' as int) as char else c
  }

  /** pg_strcasecmp(a, b) == 0: equal up to the case of ASCII letters. */
  predicate CaseEq(a: string, b: string) {
    |a| == |b| && forall i :: 0 <= i < |a| ==> Lower(a[i]) == Lower(b[i])
  }

  /** The status whose name matches first, in enum order; INVALID when none does. */
  function StatusOf(s: string): (status: int)
    ensures InRange(status)
    ensures status != INVALID ==> CaseEq(s, NAMES[status])
    ensures forall j :: INVALID <= j < status ==> !CaseEq(s, NAMES[j])
    ensures status == INVALID && !CaseEq(s, NAMES[INVALID]) ==>
              forall j :: INVALID <= j <= CORRUPT ==> !CaseEq(s, NAMES[j])
  {
    FirstMatch(s, INVALID)
  }

  function FirstMatch(s: string, from: int): (status: int)
    requires INVALID <= from <= CORRUPT + 1
    ensures InRange(status) && (status == INVALID || status >= from)
    ensures status >= from && status != INVALID ==> CaseEq(s, NAMES[status])
    ensures forall j :: from <= j < status ==> !CaseEq(s, NAMES[j])
    ensures status == INVALID && (from > INVALID || !CaseEq(s, NAMES[INVALID])) ==>
              forall j :: from <= j <= CORRUPT ==> !CaseEq(s, NAMES[j])
    decreases CORRUPT + 1 - from
  {
    if from > CORRUPT then INVALID
    else if CaseEq(s, NAMES[from]) then from
    else FirstMatch(s, from + 1)
  }

  /** str2status: a search through the names table, in enum order. */
  method StrToStatus(s: string) returns (status: int)
    ensures status == StatusOf(s)
  {
    var i := INVALID;
    while i <= CORRUPT
      invariant INVALID <= i <= CORRUPT + 1
      invariant forall j :: INVALID <= j < i ==> !CaseEq(s, NAMES[j])
    {
      if CaseEq(s, NAMES[i]) {
        return i;
      }
      i := i + 1;
    }
    return INVALID;
  }

  /** Names differ in their length or in their first letter, whatever the case. */
  lemma NamesDistinct(i: int, j: int)
    requires InRange(i) && InRange(j) && i != j
    ensures !CaseEq(NAMES[i], NAMES[j])
  {
    assert NAMES[i] != [] && NAMES[j] != [];
    assert |NAMES[i]| != |NAMES[j]| || Lower(NAMES[i][0]) != Lower(NAMES[j][0]);
  }

  /** Round trip: every status is found again from its name; others read as INVALID. */
  lemma StatusOfName(status: int)
    ensures StatusOf(StatusToStr(status)) == if InRange(status) then status else INVALID
  {
    var name := StatusToStr(status);
    var found := StatusOf(name);
    var expected := if InRange(status) then status else INVALID;
    assert CaseEq(name, NAMES[expected]);
    if found != expected {
      NamesDistinct(found, expected);
    }
  }
}
