/**
 * The checks the ptrack tests make of a change map against page checksums
 * taken before and after a workload (tests/helpers/ptrack_helpers.py,
 * check_ptrack_sanity, check_ptrack_map_sanity, check_ptrack_recovery,
 * check_ptrack_clean). A relation's record holds its sizes in pages, the
 * page checksums before and after, and the bits decoded from its map.
 */
module Sanity {
  import opened Common

  /** One entry of idx_ptrack: a relation with everything the checks read of it. */
  datatype Relation = Relation(
    relType: string,
    oldSize: int,
    newSize: int,
    oldPages: map<int, string>,
    newPages: map<int, string>,
    ptrack: seq<int>)

  /** Indexing the map's bits past their end raises IndexError at that page. */
  datatype IndexError = IndexError(page: nat)

  /** The number of pages compared: the larger of the two sizes. */
  function PagesCompared(rel: Relation): int {
    if rel.newSize > rel.oldSize then rel.newSize else rel.oldSize
  }

  predicate InBoth(rel: Relation, p: int) {
    p in rel.oldPages && p in rel.newPages
  }

  /**
   * Whether page p's bit satisfies the check: a page that is new must be
   * marked; a page that was removed, or kept with the same checksum, may
   * have any bit; a kept page whose checksum changed must be marked, except
   * page 0 of an SP-GiST index.
   */
  predicate PageOk(rel: Relation, p: nat)
    requires p < |rel.ptrack|
  {
    if p !in rel.oldPages then rel.ptrack[p] == 1
    else if p !in rel.newPages then true
    else if rel.newPages[p] != rel.oldPages[p] then rel.ptrack[p] == 1 || (p == 0 && rel.relType == "spgist")
    else true
  }

  /** check_ptrack_sanity as evidently intended: every compared page is checked. */
  function SanitySpec(rel: Relation): (r: Result<bool, IndexError>)
  {
    if |rel.ptrack| < PagesCompared(rel) then Err(IndexError(|rel.ptrack|))
    else Ok(forall p: nat :: p < PagesCompared(rel) ==> PageOk(rel, p))
  }

  /**
   * Whether the loop as written reaches its misplaced `return` at page p: the
   * page is in both checksum maps and is not the exempt page 0 of an SP-GiST
   * index whose changed checksum comes with a clear bit, which `continue`s.
   */
  predicate ReturnsAt(rel: Relation, p: nat) {
    && InBoth(rel, p)
    && !(p == 0 && rel.relType == "spgist" && rel.newPages[p] != rel.oldPages[p]
         && p < |rel.ptrack| && rel.ptrack[p] != 1)
  }

  /** The first page at or after `from` and below `size` where the loop as written returns, or `size`. */
  function FirstReturn(rel: Relation, from: nat, size: nat): (c: nat)
    requires from <= size
    ensures from <= c <= size
    ensures c < size ==> ReturnsAt(rel, c)
    ensures forall p :: from <= p < c ==> !ReturnsAt(rel, p)
    decreases size - from
  {
    if from == size || ReturnsAt(rel, from) then from else FirstReturn(rel, from + 1, size)
  }

  /**
   * check_ptrack_sanity as written: `return success` sits inside the loop,
   * after the checks of a page present in both maps, so the loop ends at
   * the first page where ReturnsAt holds; when there is none it falls off
   * the end and yields None.
   */
  function SanityAsWrittenSpec(rel: Relation): (r: Result<Option<bool>, IndexError>)
  {
    var size: nat := if PagesCompared(rel) > 0 then PagesCompared(rel) else 0;
    var c := FirstReturn(rel, 0, size);
    var examined := if c < size then c + 1 else size;
    if |rel.ptrack| < examined then Err(IndexError(|rel.ptrack|))
    else if c == size then Ok(None)
    else Ok(Some(forall p: nat :: p <= c ==> PageOk(rel, p)))
  }

  /** The state of the loop after pages [0, p): no error so far, and success says whether they all passed. */
  ghost predicate CheckedUpTo(rel: Relation, p: nat, success: bool) {
    && p <= |rel.ptrack|
    && (success <==> forall q: nat :: q < p ==> PageOk(rel, q))
  }

  /**
   * The checks of one page: the new value of success, and whether the body
   * runs to its end (where the code as written returns) rather than leaving
   * by `continue`.
   */
  method CheckPage(rel: Relation, page: nat, success: bool) returns (success': bool, reachesEnd: bool)
    requires page < |rel.ptrack|
    ensures success' <==> success && PageOk(rel, page)
    ensures reachesEnd <==> ReturnsAt(rel, page)
  {
    success' := success;
    reachesEnd := false;
    if page !in rel.oldPages {
      // A page that did not exist before must be marked.
      if rel.ptrack[page] != 1 {
        success' := false;
      }
      return;
    }
    if page !in rel.newPages {
      // A page that no longer exists: its bit is only reported.
      return;
    }
    if rel.newPages[page] != rel.oldPages[page] {
      if rel.ptrack[page] != 1 {
        if page == 0 && rel.relType == "spgist" {
          return;
        }
        success' := false;
      }
    }
    // An unchanged page whose bit is set is only reported.
    reachesEnd := true;
  }

  lemma CheckedStep(rel: Relation, p: nat, success: bool, success': bool)
    requires CheckedUpTo(rel, p, success)
    requires p < |rel.ptrack|
    requires success' <==> success && PageOk(rel, p)
    ensures CheckedUpTo(rel, p + 1, success')
  {
    if !success' && success {
      assert !PageOk(rel, p);
    }
  }

  /** check_ptrack_sanity, as the code is written. */
  method PtrackSanityAsWritten(rel: Relation) returns (r: Result<Option<bool>, IndexError>)
    ensures r == SanityAsWrittenSpec(rel)
  {
    var success := true;
    var size: int;
    if rel.newSize > rel.oldSize {
      size := rel.newSize;
    } else {
      size := rel.oldSize;
    }
    var n: nat := if size > 0 then size else 0;
    ghost var c := FirstReturn(rel, 0, n);
    var page := 0;
    while page < n
      invariant page <= c
      invariant CheckedUpTo(rel, page, success)
    {
      if page >= |rel.ptrack| {
        return Err(IndexError(page));
      }
      var success', reachesEnd := CheckPage(rel, page, success);
      CheckedStep(rel, page, success, success');
      success := success';
      if reachesEnd {
        return Ok(Some(success));
      }
      page := page + 1;
    }
    return Ok(None);
  }

  /** check_ptrack_sanity with `return success` after the loop: every compared page is checked. */
  method PtrackSanity(rel: Relation) returns (r: Result<bool, IndexError>)
    ensures r == SanitySpec(rel)
  {
    var success := true;
    var size: int;
    if rel.newSize > rel.oldSize {
      size := rel.newSize;
    } else {
      size := rel.oldSize;
    }
    var page := 0;
    while page < size
      invariant page <= size || page == 0
      invariant CheckedUpTo(rel, page, success)
    {
      if page >= |rel.ptrack| {
        return Err(IndexError(page));
      }
      var success', _ := CheckPage(rel, page, success);
      CheckedStep(rel, page, success, success');
      success := success';
      page := page + 1;
    }
    return Ok(success);
  }

  // ---------------------------------------------------------------------
  // What the check accepts
  // ---------------------------------------------------------------------

  /**
   * A page missing from the new checksums never changes the verdict,
   * whatever its bit.
   */
  lemma RemovedPageBitIrrelevant(rel: Relation, p: nat, bit: int)
    requires p < |rel.ptrack|
    requires p in rel.oldPages && p !in rel.newPages
    ensures SanitySpec(rel.(ptrack := rel.ptrack[p := bit])) == SanitySpec(rel)
  {
    var rel' := rel.(ptrack := rel.ptrack[p := bit]);
    forall q: nat | q < PagesCompared(rel) && q < |rel.ptrack|
      ensures PageOk(rel', q) == PageOk(rel, q)
    {
    }
  }

  /**
   * Marking more pages never turns a passing check into a failing one:
   * false positives are tolerated.
   */
  lemma MoreMarksStillPass(rel: Relation, marks: seq<int>)
    requires |marks| == |rel.ptrack|
    requires forall p :: 0 <= p < |marks| && rel.ptrack[p] == 1 ==> marks[p] == 1
    requires SanitySpec(rel) == Ok(true)
    ensures SanitySpec(rel.(ptrack := marks)) == Ok(true)
  {
    var rel' := rel.(ptrack := marks);
    forall q: nat | q < PagesCompared(rel)
      ensures PageOk(rel', q)
    {
      assert PageOk(rel, q);
    }
  }

  /** A map with every bit set passes, whatever the checksums. */
  lemma AllMarkedPasses(rel: Relation)
    requires PagesCompared(rel) <= |rel.ptrack|
    requires forall p :: 0 <= p < |rel.ptrack| ==> rel.ptrack[p] == 1
    ensures SanitySpec(rel) == Ok(true)
  {
    forall q: nat | q < PagesCompared(rel)
      ensures PageOk(rel, q)
    {
      assert rel.ptrack[q] == 1;
    }
  }

  /** A page added by the workload whose bit is clear makes the check fail. */
  lemma UnmarkedNewPageFails(rel: Relation, p: nat)
    requires PagesCompared(rel) <= |rel.ptrack|
    requires p < PagesCompared(rel) && p !in rel.oldPages && rel.ptrack[p] != 1
    ensures SanitySpec(rel) == Ok(false)
  {
    assert !PageOk(rel, p);
  }

  // ---------------------------------------------------------------------
  // The early return, exhibited
  // ---------------------------------------------------------------------

  /** Two unchanged-size pages; the second changed but its bit is clear. */
  function MissedChange(): Relation {
    Relation("heap", 2, 2, map[0 := "a", 1 := "b"], map[0 := "a", 1 := "c"], [0, 0])
  }

  /**
   * As written, the check stops after page 0 and reports success although
   * page 1 changed with its bit clear; checking every page reports failure.
   */
  lemma AsWrittenMissesLaterPages()
    ensures SanityAsWrittenSpec(MissedChange()) == Ok(Some(true))
    ensures SanitySpec(MissedChange()) == Ok(false)
  {
    var rel := MissedChange();
    assert ReturnsAt(rel, 0);
    assert PageOk(rel, 0);
    assert !PageOk(rel, 1);
  }

  /**
   * As written, a relation whose pages are all new yields None, which the
   * map check counts as a failure, although every new page is marked.
   */
  lemma AsWrittenFailsGrownRelation()
    ensures SanityAsWrittenSpec(Relation("heap", 0, 1, map[], map[0 := "a"], [1])) == Ok(None)
    ensures SanitySpec(Relation("heap", 0, 1, map[], map[0 := "a"], [1])) == Ok(true)
  {
    var rel := Relation("heap", 0, 1, map[], map[0 := "a"], [1]);
    assert FirstReturn(rel, 0, 1) == 1 by {
      assert !ReturnsAt(rel, 0);
    }
    assert PageOk(rel, 0);
  }

  // ---------------------------------------------------------------------
  // check_ptrack_map_sanity, check_ptrack_recovery, check_ptrack_clean
  // ---------------------------------------------------------------------

  /**
   * The verdict over every relation in order: the first IndexError stops
   * the walk; otherwise the assertion holds iff every relation passed.
   */
  function MapSanitySpec(rels: seq<Relation>): (r: Result<bool, IndexError>)
  {
    if rels == [] then Ok(true)
    else match SanitySpec(rels[0])
      case Err(e) => Err(e)
      case Ok(pass) =>
        match MapSanitySpec(rels[1..])
          case Err(e) => Err(e)
          case Ok(rest) => Ok(pass && rest)
  }

  /** The map check passes exactly when every relation passes its own check. */
  lemma {:induction false} MapSanityAll(rels: seq<Relation>)
    ensures MapSanitySpec(rels) == Ok(true) <==> forall i :: 0 <= i < |rels| ==> SanitySpec(rels[i]) == Ok(true)
  {
    if rels != [] {
      MapSanityAll(rels[1..]);
      assert forall i :: 1 <= i < |rels| ==> rels[i] == rels[1..][i - 1];
    }
  }

  /**
   * check_ptrack_map_sanity over relations whose sizes, checksums and
   * bits have been refreshed: the final assertTrue passes iff success
   * stayed true.
   */
  method PtrackMapSanity(rels: seq<Relation>) returns (r: Result<bool, IndexError>)
    ensures r == MapSanitySpec(rels)
  {
    var i := |rels|;
    // The verdicts are combined from the last relation back, so that the
    // first error in order is the one reported.
    r := Ok(true);
    while i > 0
      invariant 0 <= i <= |rels|
      invariant r == MapSanitySpec(rels[i..])
    {
      i := i - 1;
      var one := PtrackSanity(rels[i]);
      assert rels[i..][1..] == rels[i + 1..];
      if one.Err? {
        r := Err(one.error);
      } else if r.Ok? {
        r := Ok(one.value && r.value);
      }
    }
    assert rels[0..] == rels;
  }

  /** The outcome of checking that every page carries the expected bit. */
  datatype PageCheck =
    | Passed
    | WrongBit(page: nat)        // assertTrue(False, ...) at this page
    | PastEnd(page: nat)         // IndexError at this page

  /**
   * The loop of check_ptrack_recovery (expected 1) and check_ptrack_clean
   * (expected 0): the first page below size whose bit differs fails the
   * assertion.
   */
  method CheckEveryPage(ptrack: seq<int>, size: int, expected: int) returns (r: PageCheck)
    ensures r == Passed <==> size <= |ptrack| && forall p :: 0 <= p < size ==> ptrack[p] == expected
    ensures r.WrongBit? ==> r.page < size && r.page < |ptrack| && ptrack[r.page] != expected
    ensures r.PastEnd? ==> r.page == |ptrack| < size
    ensures !r.Passed? ==> forall p :: 0 <= p < r.page ==> p < |ptrack| && ptrack[p] == expected
  {
    var page := 0;
    while page < size
      invariant 0 <= page <= |ptrack| && (page <= size || page == 0)
      invariant forall p :: 0 <= p < page ==> p < |ptrack| && ptrack[p] == expected
    {
      if page >= |ptrack| {
        return PastEnd(page);
      }
      if ptrack[page] != expected {
        return WrongBit(page);
      }
      page := page + 1;
    }
    return Passed;
  }

  /** check_ptrack_recovery: every page of the relation must be marked. */
  method PtrackRecovery(rel: Relation, size: int) returns (r: PageCheck)
    ensures r == Passed <==> size <= |rel.ptrack| && forall p :: 0 <= p < size ==> rel.ptrack[p] == 1
    ensures !r.Passed? ==> r.page < size
  {
    var ptrack := rel.ptrack;
    r := CheckEveryPage(ptrack, size, 1);
  }

  /** check_ptrack_clean: no page below size may be marked. */
  method PtrackClean(rel: Relation, size: int) returns (r: PageCheck)
    ensures r == Passed <==> size <= |rel.ptrack| && forall p :: 0 <= p < size ==> rel.ptrack[p] == 0
    ensures !r.Passed? ==> r.page < size
  {
    var ptrack := rel.ptrack;
    r := CheckEveryPage(ptrack, size, 0);
  }
}
