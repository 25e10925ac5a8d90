/**
 * Per-page checksums of a relation fork as the test helpers compute them
 * (tests/helpers/ptrack_helpers.py, get_md5_per_page_for_fork). A fork is
 * stored as segment files of 131072 pages each: the first under the fork's
 * own path, segment s under "<path>.s". The file system is a map from
 * segment number to the bytes of that segment file; md5 is a parameter.
 */
module Pages {
  import opened Common

  const BLCKSZ: nat := 8192
  /** Pages per segment file (RELSEG_SIZE). */
  const SEGMENT_PAGES: nat := 131072
  const SEGMENT_BYTES: nat := BLCKSZ * SEGMENT_PAGES

  datatype ReadError = MissingSegment(segno: nat)

  function Min(a: int, b: int): int {
    if a <= b then a else b
  }

  /** The number of segment files a fork of n pages occupies. */
  function SegmentCount(n: nat): (c: nat)
    ensures n <= SEGMENT_PAGES * c
    ensures c > 0 ==> SEGMENT_PAGES * (c - 1) < n
    ensures c == 0 <==> n == 0
  {
    var c := n / SEGMENT_PAGES + (if n % SEGMENT_PAGES != 0 then 1 else 0);
    assert n == SEGMENT_PAGES * (n / SEGMENT_PAGES) + n % SEGMENT_PAGES;
    c
  }

  /** os.read(fd, 8192) with the file offset at pos: up to one page, nothing past the end. */
  function ReadAt(file: Bytes, pos: nat): (chunk: Bytes)
    ensures |chunk| <= BLCKSZ
    ensures pos + |chunk| <= |file| || chunk == []
  {
    if pos >= |file| then [] else file[pos .. Min(pos + BLCKSZ, |file|)]
  }

  /** The checksum the helper records for page p of the fork. */
  function PageMd5(segments: map<nat, Bytes>, md5: Bytes -> string, p: nat): string
    requires p / SEGMENT_PAGES in segments
  {
    md5(ReadAt(segments[p / SEGMENT_PAGES], BLCKSZ * (p % SEGMENT_PAGES)))
  }

  /**
   * The first loop of the helper: how many pages each segment holds. Every
   * segment is full except possibly the last, and together they end at n.
   */
  method PagesPerSegment(n: nat) returns (pps: seq<nat>)
    ensures |pps| == SegmentCount(n)
    ensures forall s :: 0 <= s < |pps| ==> 1 <= pps[s] && SEGMENT_PAGES * s + pps[s] == Min(SEGMENT_PAGES * (s + 1), n)
  {
    var nsegments := n / SEGMENT_PAGES;
    if n % SEGMENT_PAGES != 0 {
      nsegments := nsegments + 1;
    }
    var size: int := n;
    pps := [];
    for s := 0 to nsegments
      invariant |pps| == s
      invariant size == n - SEGMENT_PAGES * s
      invariant forall t :: 0 <= t < s ==> 1 <= pps[t] && SEGMENT_PAGES * t + pps[t] == Min(SEGMENT_PAGES * (t + 1), n)
    {
      if size - SEGMENT_PAGES > 0 {
        pps := pps + [SEGMENT_PAGES];
      } else {
        pps := pps + [size];
      }
      size := size - SEGMENT_PAGES;
    }
  }

  /**
   * max(d) for a non-empty dict, over its keys in the order the dict holds
   * them (insertion order): the greatest of them.
   */
  method MaxKey(keys: seq<int>) returns (mx: int)
    requires |keys| > 0
    ensures mx in keys
    ensures forall i :: 0 <= i < |keys| ==> keys[i] <= mx
  {
    mx := keys[0];
    for i := 1 to |keys|
      invariant mx in keys[..i]
      invariant forall j :: 0 <= j < i ==> keys[j] <= mx
    {
      if keys[i] > mx {
        mx := keys[i];
      }
    }
    assert keys[..|keys|] == keys;
  }

  /** The segments before s are all present. */
  ghost predicate SegmentsUpTo(segments: map<nat, Bytes>, s: nat) {
    forall t: nat :: t < s ==> t in segments
  }

  /**
   * d records pages [0, end) of the fork, each with its checksum, and keys
   * lists them in the order they were inserted.
   */
  ghost predicate RecordedUpTo(d: map<int, string>, keys: seq<int>, segments: map<nat, Bytes>, md5: Bytes -> string, end: nat) {
    && |keys| == end
    && (forall i :: 0 <= i < end ==> keys[i] == i)
    && (forall p: int :: 0 <= p < end <==> p in d)
    && (forall p: int :: p in d ==> p >= 0 && p / SEGMENT_PAGES in segments && d[p] == PageMd5(segments, md5, p))
  }

  /** The first segment at or after `from` and below `count` that is missing, or `count`. */
  function FirstMissing(segments: map<nat, Bytes>, from: nat, count: nat): (m: nat)
    requires from <= count
    ensures from <= m <= count
    ensures m < count ==> m !in segments
    ensures forall t: nat :: from <= t < m ==> t in segments
    decreases count - from
  {
    if from == count || from !in segments then from else FirstMissing(segments, from + 1, count)
  }

  /** Every page of a fork of n pages lies in one of its SegmentCount(n) segments. */
  lemma SegmentsCover(segments: map<nat, Bytes>, n: nat)
    requires SegmentsUpTo(segments, SegmentCount(n))
    ensures forall p: int :: 0 <= p < n ==> p / SEGMENT_PAGES in segments
  {
    forall p: int | 0 <= p < n
      ensures p / SEGMENT_PAGES in segments
    {
      var c := SegmentCount(n);
      assert p / SEGMENT_PAGES < c by {
        assert SEGMENT_PAGES * (p / SEGMENT_PAGES) <= p;
      }
    }
  }

  /**
   * What get_md5_per_page_for_fork returns, stated outright: the first
   * missing segment is reported; otherwise every page below the truncated
   * size maps to the checksum of its bytes.
   */
  function PageDigests(segments: map<nat, Bytes>, sizeInPages: real, md5: Bytes -> string)
    : (r: Result<map<int, string>, ReadError>)
    requires sizeInPages >= 0.0
  {
    var n: nat := sizeInPages.Floor;
    var m := FirstMissing(segments, 0, SegmentCount(n));
    if m < SegmentCount(n) then Err(MissingSegment(m))
    else
      SegmentsCover(segments, n);
      Ok(map p: int | 0 <= p < n :: PageMd5(segments, md5, p))
  }

  /**
   * get_md5_per_page_for_fork: the checksum of every page of a fork of
   * sizeInPages pages, int() dropping a fractional trailing page, read
   * segment by segment; opening a segment file that does not exist fails at
   * the first one missing.
   */
  method Md5PerPageForFork(segments: map<nat, Bytes>, sizeInPages: real, md5: Bytes -> string)
    returns (r: Result<map<int, string>, ReadError>)
    requires sizeInPages >= 0.0
    ensures r.Err? ==> && r.error.segno < SegmentCount(sizeInPages.Floor)
                       && r.error.segno !in segments
                       && SegmentsUpTo(segments, r.error.segno)
    ensures r.Ok? ==> SegmentsUpTo(segments, SegmentCount(sizeInPages.Floor))
    ensures r.Ok? ==> forall p: int :: 0 <= p < sizeInPages.Floor <==> p in r.value
    ensures r.Ok? ==> forall p: int :: p in r.value ==>
              p >= 0 && p / SEGMENT_PAGES in segments && r.value[p] == PageMd5(segments, md5, p)
    ensures r == PageDigests(segments, sizeInPages, md5)
  {
    var size: nat := sizeInPages.Floor;
    var pps := PagesPerSegment(size);
    var md5PerPage: map<int, string> := map[];
    var keys: seq<int> := [];
    var end: nat := 0;
    for s := 0 to |pps|
      invariant SegmentsUpTo(segments, s)
      invariant end == Min(SEGMENT_PAGES * s, size)
      invariant RecordedUpTo(md5PerPage, keys, segments, md5, end)
    {
      if s !in segments {
        assert FirstMissing(segments, 0, SegmentCount(size)) == s;
        return Err(MissingSegment(s));
      }
      var file := segments[s];
      var start: nat;
      if s == 0 {
        start := 0;
        end := pps[0];
      } else {
        assert SEGMENT_PAGES * s <= SEGMENT_PAGES * (|pps| - 1);
        assert keys[end - 1] == end - 1;
        var mx := MaxKey(keys);
        start := mx + 1;
        end := end + pps[s];
      }
      md5PerPage, keys := ReadSegment(md5PerPage, keys, segments, md5, s, start, end);
    }
    assert FirstMissing(segments, 0, SegmentCount(size)) == SegmentCount(size);
    SegmentsCover(segments, size);
    assert md5PerPage == map p: int | 0 <= p < size :: PageMd5(segments, md5, p);
    return Ok(md5PerPage);
  }

  /** The inner loop: one md5 per page of segment s, the file offset moving a page at a time. */
  method ReadSegment(d: map<int, string>, keys: seq<int>, segments: map<nat, Bytes>, md5: Bytes -> string,
                     s: nat, start: nat, end: nat)
    returns (d': map<int, string>, keys': seq<int>)
    requires s in segments
    requires start == SEGMENT_PAGES * s && start <= end <= start + SEGMENT_PAGES
    requires RecordedUpTo(d, keys, segments, md5, start)
    ensures RecordedUpTo(d', keys', segments, md5, end)
  {
    var file := segments[s];
    d', keys' := d, keys;
    var offset := 0;
    for page := start to end
      invariant offset == BLCKSZ * (page - start)
      invariant RecordedUpTo(d', keys', segments, md5, page)
    {
      SegmentOfPage(s, page - start);
      d', keys' := d'[page := md5(ReadAt(file, offset))], keys' + [page];
      offset := offset + BLCKSZ;
    }
  }

  /** Page start + i of a segment, i below the segment size, belongs to that segment at index i. */
  lemma SegmentOfPage(s: nat, i: nat)
    requires i < SEGMENT_PAGES
    ensures (SEGMENT_PAGES * s + i) / SEGMENT_PAGES == s
    ensures (SEGMENT_PAGES * s + i) % SEGMENT_PAGES == i
  {
  }

  // ---------------------------------------------------------------------
  // Segments cut from one flat fork
  // ---------------------------------------------------------------------

  /** Page p of a fork stored as one flat file, as a read of 8192 bytes at 8192 * p returns it. */
  function FlatPage(data: Bytes, p: nat): Bytes {
    ReadAt(data, BLCKSZ * p)
  }

  /** Segment s of a fork of the given bytes: its bytes from s GiB on, at most 1 GiB of them. */
  function Segment(data: Bytes, s: nat): (file: Bytes)
    requires SEGMENT_BYTES * s < |data|
  {
    data[SEGMENT_BYTES * s .. Min(SEGMENT_BYTES * s + SEGMENT_BYTES, |data|)]
  }

  /** The segment files a fork of the given bytes is stored as: 1 GiB each, the last one shorter. */
  function SegmentFiles(data: Bytes): (segments: map<nat, Bytes>)
    ensures forall s: nat :: s in segments <==> SEGMENT_BYTES * s < |data|
    ensures forall s: nat :: s in segments ==> segments[s] == Segment(data, s)
  {
    map s: nat | s < |data| && SEGMENT_BYTES * s < |data| :: Segment(data, s)
  }

  /** Byte 8192 * p of the fork lies at 8192 * (p % 131072) within segment p / 131072. */
  lemma PageOffset(p: nat)
    ensures BLCKSZ * p == SEGMENT_BYTES * (p / SEGMENT_PAGES) + BLCKSZ * (p % SEGMENT_PAGES)
    ensures BLCKSZ * (p % SEGMENT_PAGES) + BLCKSZ <= SEGMENT_BYTES
  {
    var s, i := p / SEGMENT_PAGES, p % SEGMENT_PAGES;
    assert p == SEGMENT_PAGES * s + i;
    assert BLCKSZ * (SEGMENT_PAGES * s) == SEGMENT_BYTES * s;
  }

  /**
   * Reading page p through its segment file gives the same bytes as
   * reading it from the flat fork: the helper's segment arithmetic is right.
   */
  lemma SegmentedReadIsFlatRead(data: Bytes, p: nat)
    requires p / SEGMENT_PAGES in SegmentFiles(data)
    ensures ReadAt(SegmentFiles(data)[p / SEGMENT_PAGES], BLCKSZ * (p % SEGMENT_PAGES)) == FlatPage(data, p)
  {
    var s := p / SEGMENT_PAGES;
    var base := SEGMENT_BYTES * s;
    var pos := BLCKSZ * (p % SEGMENT_PAGES);
    PageOffset(p);
    var file := Segment(data, s);
    assert SegmentFiles(data)[s] == file;
    if pos < |file| {
      var e := Min(pos + BLCKSZ, |file|);
      assert |file| == Min(base + SEGMENT_BYTES, |data|) - base;
      forall j | 0 <= j < e - pos
        ensures file[pos .. e][j] == data[base + pos .. base + e][j]
      {
        assert file[pos + j] == data[base + pos + j];
      }
      assert base + e == Min(BLCKSZ * p + BLCKSZ, |data|);
    }
  }

  /**
   * For a fork stored as segment files of one flat byte sequence, the
   * checksum the helper records for page p is that of page p of the flat
   * fork.
   */
  lemma PageMd5OfFlatFork(data: Bytes, md5: Bytes -> string, p: nat)
    requires p / SEGMENT_PAGES in SegmentFiles(data)
    ensures PageMd5(SegmentFiles(data), md5, p) == md5(FlatPage(data, p))
  {
    SegmentedReadIsFlatRead(data, p);
  }
}
