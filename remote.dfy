/**
 * Assembling the ssh command line that starts the remote agent
 * (src/utils/remote.c: split_options, needs_quotes, launch_agent).
 *
 * split_options tokenises a private copy of the ssh options in place: every
 * space becomes a NUL and a pointer to the start of each token is appended
 * to the argument vector. Pointers are modelled as offsets into that buffer.
 */
module Remote {
  import opened Common

  const MAX_CMDLINE_LENGTH: nat := 4096
  const MAX_CMDLINE_OPTIONS: nat := 256

  /** An entry of ssh_argv: a string, a pointer into the options copy, the cmd buffer, or NULL. */
  datatype Arg = Lit(text: string) | InOptions(offset: nat) | CmdBuffer | NullArg

  datatype SplitError = TooManyOptions

  // ---------------------------------------------------------------------
  // Tokens of a string split at every space
  // ---------------------------------------------------------------------

  /** The positions of the spaces of s, in increasing order. */
  function SpaceIdx(s: string): (idx: seq<nat>)
    ensures forall i :: 0 <= i < |idx| ==> idx[i] < |s| && s[idx[i]] == ' '
  {
    if s == [] then []
    else SpaceIdx(s[..|s| - 1]) + (if s[|s| - 1] == ' ' then [|s| - 1] else [])
  }

  /** Where the i-th token starts: at 0, or just after the (i-1)-th space. */
  function TokenStart(s: string, i: nat): (p: nat)
    requires i <= |SpaceIdx(s)|
    ensures p <= |s|
  {
    if i == 0 then 0 else SpaceIdx(s)[i - 1] + 1
  }

  /** Where the i-th token ends: at the i-th space, or at the end of s. */
  function TokenEnd(s: string, i: nat): (p: nat)
    requires i <= |SpaceIdx(s)|
    ensures TokenStart(s, i) <= p <= |s|
  {
    if i == 0 then (if |SpaceIdx(s)| > 0 then SpaceIdx(s)[0] else |s|)
    else if i < |SpaceIdx(s)| then SpaceIdxIncreasing(s, i); SpaceIdx(s)[i]
    else |s|
  }

  /** The i-th token: the text between two spaces, or before the first, or after the last. */
  function Token(s: string, i: nat): string
    requires i <= |SpaceIdx(s)|
  {
    s[TokenStart(s, i)..TokenEnd(s, i)]
  }

  /** s split at every space; n spaces give n + 1 tokens, some of them possibly empty. */
  function Tokens(s: string): (ts: seq<string>)
    ensures |ts| == |SpaceIdx(s)| + 1
    ensures forall i :: 0 <= i < |ts| ==> ts[i] == Token(s, i)
  {
    seq(|SpaceIdx(s)| + 1, i requires 0 <= i <= |SpaceIdx(s)| => Token(s, i))
  }

  /** How many tokens split_options appends: one per space, and the last one if it is not empty. */
  function AppendedCount(s: string): (m: nat)
    ensures |SpaceIdx(s)| <= m <= |SpaceIdx(s)| + 1
  {
    |SpaceIdx(s)| + (if TokenStart(s, |SpaceIdx(s)|) < |s| then 1 else 0)
  }

  /** The tokens split_options appends. */
  function SplitTokens(s: string): (ts: seq<string>)
    ensures |ts| == AppendedCount(s)
  {
    Tokens(s)[..AppendedCount(s)]
  }

  /** The buffer after split_options: the spaces of its string turned into NULs. */
  function NulSpaces(buf: seq<char>, n: nat): (r: seq<char>)
    ensures |r| == |buf|
    ensures forall j :: 0 <= j < |buf| ==> r[j] == NulAt(buf, n, j)
  {
    seq(|buf|, j requires 0 <= j < |buf| => NulAt(buf, n, j))
  }

  function NulAt(buf: seq<char>, n: nat, j: nat): char
    requires j < |buf|
  {
    if j < n && buf[j] == ' ' then '\0' else buf[j]
  }

  /** The concatenation of tokens, a space between each two. */
  function JoinSpaces(ts: seq<string>): string
    requires |ts| >= 1
  {
    if |ts| == 1 then ts[0] else JoinSpaces(ts[..|ts| - 1]) + " " + ts[|ts| - 1]
  }

  lemma SpaceIdxStep(s: string, a: nat)
    requires a < |s|
    ensures SpaceIdx(s[..a + 1]) == SpaceIdx(s[..a]) + (if s[a] == ' ' then [a] else [])
  {
    assert s[..a + 1][..a] == s[..a];
  }

  /** The spaces of a prefix are a prefix of the spaces. */
  lemma {:induction false} SpaceIdxPrefix(s: string, a: nat)
    requires a <= |s|
    ensures |SpaceIdx(s[..a])| <= |SpaceIdx(s)|
    ensures SpaceIdx(s[..a]) == SpaceIdx(s)[..|SpaceIdx(s[..a])|]
    decreases |s| - a
  {
    if a < |s| {
      SpaceIdxPrefix(s, a + 1);
      SpaceIdxStep(s, a);
      var m := |SpaceIdx(s[..a])|;
      assert SpaceIdx(s[..a]) == SpaceIdx(s[..a + 1])[..m];
    } else {
      assert s[..a] == s;
    }
  }

  lemma {:induction false} SpaceIdxSorted(s: string)
    ensures forall i, j :: 0 <= i < j < |SpaceIdx(s)| ==> SpaceIdx(s)[i] < SpaceIdx(s)[j]
  {
    if s != [] {
      SpaceIdxSorted(s[..|s| - 1]);
    }
  }

  /** Each space lies after the one before it. */
  lemma SpaceIdxIncreasing(s: string, i: nat)
    requires 0 < i < |SpaceIdx(s)|
    ensures SpaceIdx(s)[i - 1] < SpaceIdx(s)[i]
  {
    SpaceIdxSorted(s);
  }

  lemma {:induction false} SpaceIdxComplete(s: string, p: nat)
    requires p < |s|
    ensures s[p] == ' ' ==> p in SpaceIdx(s)
  {
    if p < |s| - 1 {
      assert s[..|s| - 1][p] == s[p];
      SpaceIdxComplete(s[..|s| - 1], p);
    }
  }

  /** Characters other than spaces leave the space positions as they are. */
  lemma {:induction false} SpaceIdxSkip(s: string, a: nat, b: nat)
    requires a <= b <= |s|
    requires forall j :: a <= j < b ==> s[j] != ' '
    ensures SpaceIdx(s[..b]) == SpaceIdx(s[..a])
    decreases b - a
  {
    if a < b {
      SpaceIdxStep(s, b - 1);
      SpaceIdxSkip(s, a, b - 1);
    }
  }

  /** No token contains a space. */
  lemma TokensHaveNoSpace(s: string, i: nat)
    requires i <= |SpaceIdx(s)|
    ensures ' ' !in Tokens(s)[i]
  {
    var idx := SpaceIdx(s);
    var a := TokenStart(s, i);
    var t := Token(s, i);
    SpaceIdxSorted(s);
    forall q | 0 <= q < |t| ensures t[q] != ' ' {
      var p := a + q;
      assert forall j :: 0 <= j < |idx| ==> idx[j] != p;
      assert p !in idx;
      SpaceIdxComplete(s, p);
    }
  }

  /** ts[0] to ts[k] joined with spaces, from the first. */
  function JoinFirst(ts: seq<string>, k: nat): string
    requires k < |ts|
  {
    if k == 0 then ts[0] else JoinFirst(ts, k - 1) + " " + ts[k]
  }

  lemma {:induction false} JoinSpacesPrefix(ts: seq<string>, k: nat)
    requires k < |ts|
    ensures JoinSpaces(ts[..k + 1]) == JoinFirst(ts, k)
  {
    if k == 0 {
      assert ts[..1] == [ts[0]];
    } else {
      JoinSpacesPrefix(ts, k - 1);
      assert ts[..k + 1][..k] == ts[..k];
    }
  }

  /** The tokens up to token k, joined with spaces, are s up to the end of token k. */
  lemma {:induction false} JoinTokensPrefix(s: string, k: nat)
    requires k <= |SpaceIdx(s)|
    ensures JoinFirst(Tokens(s), k) == s[..TokenEnd(s, k)]
  {
    if k > 0 {
      JoinTokensPrefix(s, k - 1);
      SplitAtSpace(s, k);
    }
  }

  /** Up to the end of token k, s is the text up to token k - 1, a space and token k. */
  lemma SplitAtSpace(s: string, k: nat)
    requires 1 <= k <= |SpaceIdx(s)|
    ensures s[..TokenEnd(s, k)] == s[..TokenEnd(s, k - 1)] + " " + Token(s, k)
  {
    var e, f := TokenEnd(s, k - 1), TokenEnd(s, k);
    assert e == SpaceIdx(s)[k - 1] && s[e] == ' ';
    assert TokenStart(s, k) == e + 1;
    assert s[..f] == s[..e] + [s[e]] + s[e + 1..f];
  }

  /** Joining the tokens with spaces gives the string back. */
  lemma JoinTokens(s: string)
    ensures JoinSpaces(Tokens(s)) == s
  {
    var k := |SpaceIdx(s)|;
    JoinSpacesPrefix(Tokens(s), k);
    JoinTokensPrefix(s, k);
    assert Tokens(s)[..k + 1] == Tokens(s);
    assert s[..TokenEnd(s, k)] == s;
  }

  /** Each appended pointer reads back, as a C string, exactly its token. */
  lemma TokenReadBack(buf: seq<char>, i: nat)
    requires '\0' in buf
    requires i <= |SpaceIdx(CString(buf))|
    ensures var s := CString(buf);
            CString(NulSpaces(buf, |s|)[TokenStart(s, i)..]) == Tokens(s)[i]
  {
    var s := CString(buf);
    var a, e := TokenStart(s, i), TokenEnd(s, i);
    var t := Tokens(s)[i];
    TokensHaveNoSpace(s, i);
    TokenInBuffer(buf, i);
    CutToken(buf, |s|, a, e, t);
  }

  /** A slice of a prefix is the same slice of the whole sequence. */
  lemma SliceOfPrefix(buf: seq<char>, n: nat, a: nat, e: nat)
    requires a <= e <= n <= |buf|
    ensures buf[..n][a..e] == buf[a..e]
  {
  }

  /** Token i of the string in buf lies in buf, ends at a space or at the NUL, and holds no NUL. */
  lemma TokenInBuffer(buf: seq<char>, i: nat)
    requires '\0' in buf
    requires i <= |SpaceIdx(CString(buf))|
    ensures var s := CString(buf);
            var a, e := TokenStart(s, i), TokenEnd(s, i);
            && |s| < |buf| && buf[|s|] == '\0'
            && buf[a..e] == Tokens(s)[i] && '\0' !in Tokens(s)[i] && (e < |s| ==> buf[e] == ' ')
  {
    var s := CString(buf);
    var a, e := TokenStart(s, i), TokenEnd(s, i);
    assert s == buf[..|s|];
    assert Tokens(s)[i] == s[a..e];
    SliceOfPrefix(buf, |s|, a, e);
    if e < |s| {
      assert s[e] == ' ';
    }
  }

  /**
   * A token between two spaces (or before the terminator) of the first n
   * characters, once the spaces are cut, is followed by a NUL.
   */
  lemma CutToken(buf: seq<char>, n: nat, a: nat, e: nat, t: string)
    requires a <= e <= n < |buf| && buf[n] == '\0'
    requires buf[a..e] == t && ' ' !in t && '\0' !in t
    requires e < n ==> buf[e] == ' '
    ensures CString(NulSpaces(buf, n)[a..]) == t
  {
    var nb := NulSpaces(buf, n);
    assert nb[a..e] == t by {
      forall j | a <= j < e ensures nb[j] == buf[j] {
        assert buf[j] == t[j - a];
      }
    }
    assert nb[e] == '\0';
    assert nb[a..] == t + nb[e..];
    CStringOfTerminated(t, nb[e..]);
  }

  // ---------------------------------------------------------------------
  // split_options
  // ---------------------------------------------------------------------

  /**
   * The options buffer part-way through split_options: below opt the spaces
   * of the string (its first n characters) are NULs, from opt on nothing has
   * changed yet.
   */
  ghost predicate CutUpTo(cur: seq<char>, orig: seq<char>, n: nat, opt: nat) {
    && |cur| == |orig| && opt <= n < |orig|
    && (forall j :: 0 <= j < opt ==> cur[j] == NulAt(orig, n, j))
    && (forall j :: opt <= j < |cur| ==> cur[j] == orig[j])
  }

  lemma CutSkip(cur: seq<char>, orig: seq<char>, n: nat, opt: nat, next: nat)
    requires CutUpTo(cur, orig, n, opt) && opt <= next <= n
    requires forall j :: opt <= j < next ==> orig[j] != ' '
    ensures CutUpTo(cur, orig, n, next)
  {
    forall j | opt <= j < next ensures cur[j] == NulAt(orig, n, j) {
      assert cur[j] == orig[j];
    }
  }

  lemma CutChar(cur: seq<char>, orig: seq<char>, n: nat, opt: nat)
    requires CutUpTo(cur, orig, n, opt) && opt < n && orig[opt] != ' '
    ensures CutUpTo(cur, orig, n, opt + 1)
  {
  }

  lemma CutSpace(cur: seq<char>, orig: seq<char>, n: nat, opt: nat)
    requires CutUpTo(cur, orig, n, opt) && opt < n && orig[opt] == ' '
    ensures CutUpTo(cur[opt := '\0'], orig, n, opt + 1)
  {
  }

  lemma CutAll(cur: seq<char>, orig: seq<char>, n: nat)
    requires CutUpTo(cur, orig, n, n)
    ensures cur == NulSpaces(orig, n)
  {
    forall j | 0 <= j < |cur| ensures cur[j] == NulSpaces(orig, n)[j] {
      if n <= j {
        assert cur[j] == orig[j];
      }
    }
  }

  /**
   * argv part-way through split_options: the first k tokens of s appended
   * from argc on, every other entry as before.
   */
  ghost predicate AppendedUpTo(cur: seq<Arg>, before: seq<Arg>, argc: int, s: string, k: nat) {
    && |cur| == |before| && 0 <= argc && argc + k <= |cur| && k <= |SpaceIdx(s)| + 1
    && (forall i :: 0 <= i < k ==> i <= |SpaceIdx(s)| && cur[argc + i] == InOptions(TokenStart(s, i)))
    && (forall j :: 0 <= j < |cur| && !(argc <= j < argc + k) ==> cur[j] == before[j])
  }

  lemma AppendNext(cur: seq<Arg>, before: seq<Arg>, argc: int, s: string, k: nat)
    requires AppendedUpTo(cur, before, argc, s, k) && k <= |SpaceIdx(s)| && argc + k < |cur|
    ensures AppendedUpTo(cur[argc + k := InOptions(TokenStart(s, k))], before, argc, s, k + 1)
  {
  }

  /**
   * split_options: the string in options is cut at every space (quotes are
   * tracked but do not protect spaces), each space is overwritten with NUL,
   * and a pointer to each token is appended to argv from index argc on; the
   * last token only when it is not empty. The new count is returned. Once
   * the count reaches maxOptions after an append, the call fails.
   */
  method SplitOptions(argc: int, argv: array<Arg>, maxOptions: int, options: array<char>)
    returns (r: Result<int, SplitError>)
    requires 0 <= argc < maxOptions <= argv.Length
    requires '\0' in options[..]
    modifies argv, options
    ensures var s := CString(old(options[..]));
            r.Err? <==> argc + AppendedCount(s) >= maxOptions
    ensures var s := CString(old(options[..]));
            r.Ok? ==>
              && r.value == argc + AppendedCount(s)
              && options[..] == NulSpaces(old(options[..]), |s|)
              && (forall i :: 0 <= i < AppendedCount(s) ==> argv[argc + i] == InOptions(TokenStart(s, i)))
              && (forall j :: 0 <= j < argv.Length && !(argc <= j < argc + AppendedCount(s)) ==>
                    argv[j] == old(argv[j]))
  {
    ghost var s := CString(options[..]);
    var ok, count, start, end := CutAtSpaces(argc, argv, maxOptions, options);
    if !ok {
      return Err(TooManyOptions);
    }
    if end != start {
      AppendNext(argv[..], old(argv[..]), argc, s, count - argc);
      argv[count] := InOptions(start);
      count := count + 1;
      if count >= maxOptions {
        return Err(TooManyOptions);
      }
    }
    assert AppendedUpTo(argv[..], old(argv[..]), argc, s, AppendedCount(s));
    return Ok(count);
  }

  /**
   * The loop of split_options, up to the terminating NUL: every space is
   * cut and the token before it appended. On success the start and the end
   * of the last token are returned.
   */
  method CutAtSpaces(argc: int, argv: array<Arg>, maxOptions: int, options: array<char>)
    returns (ok: bool, count: int, start: nat, end: nat)
    requires 0 <= argc < maxOptions <= argv.Length
    requires '\0' in options[..]
    modifies argv, options
    ensures var s := CString(old(options[..]));
            !ok ==> argc + |SpaceIdx(s)| >= maxOptions
    ensures var s := CString(old(options[..]));
            ok ==>
              && count == argc + |SpaceIdx(s)| < maxOptions
              && start == TokenStart(s, |SpaceIdx(s)|) && end == |s|
              && options[..] == NulSpaces(old(options[..]), |s|)
              && AppendedUpTo(argv[..], old(argv[..]), argc, s, |SpaceIdx(s)|)
  {
    ghost var orig := options[..];
    ghost var s := CString(orig);
    ghost var k := 0;
    var opt := 0;
    start := 0;
    var inQuote := '\0';
    count := argc;
    while options[opt] != '\0'
      invariant Scanning(options[..], orig, s, argv[..], old(argv[..]), argc, maxOptions, opt, start, count, k, inQuote)
      decreases |s| - opt
    {
      var stop;
      stop, opt, start, count, k, inQuote :=
        CutStep(argc, argv, maxOptions, options, orig, s, old(argv[..]), opt, start, count, k, inQuote);
      if stop {
        return false, count, start, opt;
      }
    }
    assert opt == |s| && k == |SpaceIdx(s)|;
    CutAll(options[..], orig, |s|);
    return true, count, start, opt;
  }

  /** The state of split_options' loop before it reads options[opt]. */
  ghost predicate Scanning(cur: seq<char>, orig: seq<char>, s: string, args: seq<Arg>, args0: seq<Arg>,
                           argc: int, maxOptions: int, opt: nat, start: nat, count: int, k: nat, inQuote: char)
  {
    && |s| < |orig| && orig[|s|] == '\0' && (forall j :: 0 <= j < |s| ==> s[j] == orig[j])
    && start <= opt <= |s|
    && CutUpTo(cur, orig, |s|, opt)
    && (inQuote == '\0' || inQuote == '\'' || inQuote == '"')
    && count == argc + k && count < maxOptions
    && SpacesBefore(s, k, opt)
    && start == TokenStart(s, k)
    && AppendedUpTo(args, args0, argc, s, k)
  }

  /** One pass through split_options' switch on a character other than NUL. */
  method CutStep(argc: int, argv: array<Arg>, maxOptions: int, options: array<char>,
                 ghost orig: seq<char>, ghost s: string, ghost args0: seq<Arg>,
                 opt: nat, start: nat, count: int, ghost k: nat, inQuote: char)
    returns (stop: bool, opt': nat, start': nat, count': int, ghost k': nat, inQuote': char)
    requires Scanning(options[..], orig, s, argv[..], args0, argc, maxOptions, opt, start, count, k, inQuote)
    requires maxOptions <= argv.Length
    requires opt < options.Length && options[opt] != '\0'
    modifies argv, options
    ensures stop ==> argc + |SpaceIdx(s)| >= maxOptions
    ensures !stop ==>
              && opt < opt' <= |s|
              && Scanning(options[..], orig, s, argv[..], args0, argc, maxOptions, opt', start', count', k', inQuote')
  {
    var n := |s|;
    var c := options[opt];
    assert opt < n && c == s[opt] && orig[opt] == c;
    if c == '\'' || c == '"' {
      var next, quote := QuoteStep(options, n, opt, inQuote);
      assert forall j :: opt <= j < next ==> s[j] != ' ' by {
        forall j | opt <= j < next ensures s[j] != ' ' {
          assert options[j] == orig[j] == s[j];
        }
      }
      SpacesSkipped(s, k, opt, next);
      CutSkip(options[..], orig, n, opt, next);
      return false, next, start, count, k, quote;
    } else if c == ' ' {
      stop, opt', start', count', k' :=
        CutSpaceStep(argc, argv, maxOptions, options, orig, s, args0, opt, start, count, k, inQuote);
      inQuote' := inQuote;
    } else {
      SpaceNotFound(s, k, opt);
      CutChar(options[..], orig, n, opt);
      return false, opt + 1, start, count, k, inQuote;
    }
  }

  /**
   * The space case: the token that ends here is appended, the count
   * checked against the limit, and the space overwritten with NUL.
   */
  method CutSpaceStep(argc: int, argv: array<Arg>, maxOptions: int, options: array<char>,
                      ghost orig: seq<char>, ghost s: string, ghost args0: seq<Arg>,
                      opt: nat, start: nat, count: int, ghost k: nat, ghost inQuote: char)
    returns (stop: bool, opt': nat, start': nat, count': int, ghost k': nat)
    requires Scanning(options[..], orig, s, argv[..], args0, argc, maxOptions, opt, start, count, k, inQuote)
    requires maxOptions <= argv.Length
    requires opt < |s| && s[opt] == ' '
    modifies argv, options
    ensures stop ==> argc + |SpaceIdx(s)| >= maxOptions
    ensures !stop ==>
              && opt' == opt + 1
              && Scanning(options[..], orig, s, argv[..], args0, argc, maxOptions, opt', start', count', k', inQuote)
  {
    SpaceFound(s, k, opt);
    AppendNext(argv[..], args0, argc, s, k);
    argv[count] := InOptions(start);
    if count + 1 >= maxOptions {
      return true, opt, start, count + 1, k + 1;
    }
    CutSpace(options[..], orig, |s|, opt);
    options[opt] := '\0';
    return false, opt + 1, opt + 1, count + 1, k + 1;
  }

  /** Spaces 0 to k - 1 of s lie before opt, space k (if any) at opt or after. */
  ghost predicate SpacesBefore(s: string, k: nat, opt: nat) {
    && k <= |SpaceIdx(s)|
    && (k == 0 || SpaceIdx(s)[k - 1] < opt)
    && (k < |SpaceIdx(s)| ==> SpaceIdx(s)[k] >= opt)
  }

  /** A space met at opt is space k. */
  lemma SpaceFound(s: string, k: nat, opt: nat)
    requires SpacesBefore(s, k, opt) && opt < |s| && s[opt] == ' '
    ensures k < |SpaceIdx(s)| && SpaceIdx(s)[k] == opt
    ensures SpacesBefore(s, k + 1, opt + 1)
  {
    var sp := SpaceIdx(s);
    SpaceIdxComplete(s, opt);
    SpaceIdxSorted(s);
    var j :| 0 <= j < |sp| && sp[j] == opt;
    assert j == k;
  }

  lemma SpaceNotFound(s: string, k: nat, opt: nat)
    requires SpacesBefore(s, k, opt) && opt < |s| && s[opt] != ' '
    ensures SpacesBefore(s, k, opt + 1)
  {
    SpacesSkipped(s, k, opt, opt + 1);
  }

  /** Characters other than spaces pass no space. */
  lemma SpacesSkipped(s: string, k: nat, opt: nat, next: nat)
    requires SpacesBefore(s, k, opt) && opt <= next <= |s|
    requires forall j :: opt <= j < next ==> s[j] != ' '
    ensures SpacesBefore(s, k, next)
  {
    if k < |SpaceIdx(s)| {
      var p := SpaceIdx(s)[k];
      assert s[p] == ' ';
    }
  }

  /**
   * The quote case of split_options' switch: an opening quote is recorded;
   * the matching quote closes it, unless it is doubled, in which case both
   * characters are passed over; any other quote character is passed over.
   */
  method QuoteStep(options: array<char>, ghost n: nat, opt: nat, inQuote: char)
    returns (next: nat, quote: char)
    requires opt < n < options.Length && options[n] == '\0'
    requires options[opt] == '\'' || options[opt] == '"'
    ensures opt < next <= n
    ensures forall j :: opt <= j < next ==> options[j] == '\'' || options[j] == '"'
    ensures inQuote == '\0' ==> next == opt + 1 && quote == options[opt]
    ensures inQuote != '\0' && options[opt] != inQuote ==> next == opt + 1 && quote == inQuote
    ensures inQuote != '\0' && options[opt] == inQuote ==>
              if options[opt + 1] == inQuote then next == opt + 2 && quote == inQuote
              else next == opt + 1 && quote == '\0'
  {
    var c := options[opt];
    if inQuote == '\0' {
      return opt + 1, c;
    }
    if c == inQuote {
      if options[opt + 1] != inQuote {
        return opt + 1, '\0';
      }
      return opt + 2, inQuote;
    }
    return opt + 1, inQuote;
  }
}

module RemoteAgent {
  import opened Common
  import opened Remote

  // ---------------------------------------------------------------------
  // needs_quotes and the agent command
  // ---------------------------------------------------------------------

  /** strchr: the first position of c in s, if any. */
  function StrChr(s: string, c: char): (r: Option<nat>)
    ensures r.None? <==> c !in s
    ensures r.Some? ==> r.value < |s| && s[r.value] == c && c !in s[..r.value]
  {
    if s == [] then None
    else if s[0] == c then Some(0)
    else match StrChr(s[1..], c)
      case None => None
      case Some(i) => assert s[..i + 1] == [s[0]] + s[1..][..i]; Some(i + 1)
  }

  /** strrchr: the last position of c in s, if any. */
  function StrRChr(s: string, c: char): (r: Option<nat>)
    ensures r.None? <==> c !in s
    ensures r.Some? ==> r.value < |s| && s[r.value] == c && c !in s[r.value + 1..]
  {
    if s == [] then None
    else if s[|s| - 1] == c then Some(|s| - 1)
    else match StrRChr(s[..|s| - 1], c)
      case None => assert s == s[..|s| - 1] + [s[|s| - 1]]; None
      case Some(i) => assert s[i + 1..] == s[..|s| - 1][i + 1..] + [s[|s| - 1]]; Some(i)
  }

  /** needs_quotes: a path is quoted on the remote command line when it holds a space. */
  function NeedsQuotes(path: string): (r: bool)
    ensures r <==> ' ' in path
  {
    StrChr(path, ' ').Some?
  }

  /** The program file name: what follows the last '/' of the full name, or all of it. */
  function BaseName(full: string): (b: string)
    ensures '/' !in b
    ensures |b| <= |full| && full[|full| - |b|..] == b
    ensures '/' in full ==> full[|full| - |b| - 1] == '/'
    ensures '/' !in full ==> b == full
  {
    match StrRChr(full, '/')
      case None => full
      case Some(i) => full[i + 1..]
  }

  /** Where the agent program is found on the remote host. */
  function AgentLocation(path: Option<string>, programNameFull: string): string {
    if path.Some? then path.value + "/" + BaseName(programNameFull) else programNameFull
  }

  /**
   * The command is quoted when the remote path or the full program name
   * holds a space; the full name is tested even where only its base name
   * is used.
   */
  predicate QuoteCommand(path: Option<string>, programNameFull: string) {
    (path.Some? && NeedsQuotes(path.value)) || NeedsQuotes(programNameFull)
  }

  /** The text launch_agent formats into cmd, before the buffer's size is applied. */
  function AgentCommandText(path: Option<string>, programNameFull: string): string {
    var location := AgentLocation(path, programNameFull);
    (if QuoteCommand(path, programNameFull) then "\"" + location + "\"" else location) + " agent"
  }

  /** snprintf into a buffer of size bytes keeps at most size - 1 characters. */
  function Snprintf(text: string, size: nat): (r: string)
    requires size >= 1
    ensures |r| < size
    ensures |text| < size ==> r == text
    ensures |text| >= size ==> |r| == size - 1
    ensures r == text[..|r|]
  {
    if |text| < size then text else text[..size - 1]
  }

  /** cmd[MAX_CMDLINE_LENGTH] as launch_agent fills it. */
  function AgentCommand(path: Option<string>, programNameFull: string): (cmd: string)
    ensures |cmd| < MAX_CMDLINE_LENGTH
  {
    Snprintf(AgentCommandText(path, programNameFull), MAX_CMDLINE_LENGTH)
  }

  /**
   * The first word of a command line as a POSIX shell reads it when the
   * only quoting is a leading pair of double quotes: up to the closing
   * quote, or up to the first space. The rest of the line follows it.
   */
  function FirstWord(cmd: string): (r: (string, string))
  {
    if cmd != [] && cmd[0] == '"' then
      match StrChr(cmd[1..], '"')
        case None => (cmd[1..], [])
        case Some(i) => (cmd[1..][..i], cmd[1..][i + 1..])
    else
      match StrChr(cmd, ' ')
        case None => (cmd, [])
        case Some(i) => (cmd[..i], cmd[i..])
  }

  /** A space in the base name is a space in the full name. */
  lemma SpaceInBaseName(full: string)
    ensures ' ' in BaseName(full) ==> ' ' in full
  {
    var b := BaseName(full);
    if ' ' in b {
      var j :| 0 <= j < |b| && b[j] == ' ';
      assert full[|full| - |b| + j] == ' ';
    }
  }

  /**
   * The remote shell reads the agent's location as one word, followed by
   * the word agent, whenever the location holds no double quote and the
   * command fits the buffer: the quoting decision covers every space the
   * location can hold.
   */
  lemma AgentCommandWords(path: Option<string>, programNameFull: string)
    requires '"' !in AgentLocation(path, programNameFull)
    requires |AgentCommandText(path, programNameFull)| < MAX_CMDLINE_LENGTH
    ensures FirstWord(AgentCommand(path, programNameFull)) == (AgentLocation(path, programNameFull), " agent")
  {
    var location := AgentLocation(path, programNameFull);
    if QuoteCommand(path, programNameFull) {
      QuotedWord(location);
    } else {
      SpaceInBaseName(programNameFull);
      assert ' ' !in location by {
        if path.Some? {
          assert location == path.value + "/" + BaseName(programNameFull);
        }
      }
      PlainWord(location);
    }
  }

  lemma QuotedWord(w: string)
    requires '"' !in w
    ensures FirstWord("\"" + w + "\"" + " agent") == (w, " agent")
  {
    var cmd := "\"" + w + "\"" + " agent";
    assert cmd[1..] == w + "\" agent";
    StrChrAfter(w, "\" agent", '"');
  }

  lemma PlainWord(w: string)
    requires '"' !in w && ' ' !in w
    ensures FirstWord(w + " agent") == (w, " agent")
  {
    var cmd := w + " agent";
    if w != [] {
      assert cmd[0] == w[0];
    }
    StrChrAfter(w, " agent", ' ');
  }

  /** The first c in a + b, when a holds none and b starts with one, is at |a|. */
  lemma StrChrAfter(a: string, b: string, c: char)
    requires c !in a && b != [] && b[0] == c
    ensures StrChr(a + b, c) == Some(|a|)
  {
    assert (a + b)[|a|] == c;
    assert (a + b)[..|a|] == a;
  }

  /** A long command is cut at the buffer's size, keeping its beginning. */
  lemma AgentCommandTruncated(path: Option<string>, programNameFull: string)
    requires |AgentCommandText(path, programNameFull)| >= MAX_CMDLINE_LENGTH
    ensures |AgentCommand(path, programNameFull)| == MAX_CMDLINE_LENGTH - 1
    ensures AgentCommand(path, programNameFull) ==
              AgentCommandText(path, programNameFull)[..MAX_CMDLINE_LENGTH - 1]
  {
  }

  // ---------------------------------------------------------------------
  // ssh_argv
  // ---------------------------------------------------------------------

  /** The remote settings launch_agent reads; the optional ones may be NULL. */
  datatype RemoteConfig = RemoteConfig(
    proto: string,
    host: string,
    port: Option<string>,
    user: Option<string>,
    sshConfig: Option<string>,
    sshOptions: Option<string>,
    path: Option<string>)

  /** A flag followed by its value, or nothing when the value is NULL. */
  function FlagPair(flag: string, value: Option<string>): (args: seq<Arg>)
    ensures |args| == if value.Some? then 2 else 0
  {
    if value.Some? then [Lit(flag), Lit(value.value)] else []
  }

  /** The entries before the split options: proto, then -p, -l and -F when set. */
  function LeadingArgs(cfg: RemoteConfig): (args: seq<Arg>)
    ensures 1 <= |args| <= 7
  {
    [Lit(cfg.proto)] + FlagPair("-p", cfg.port) + FlagPair("-l", cfg.user) + FlagPair("-F", cfg.sshConfig)
  }

  /** The four -o settings always passed to ssh. */
  const FIXED_OPTIONS: seq<Arg> := [
    Lit("-o"), Lit("PasswordAuthentication=no"),
    Lit("-o"), Lit("Compression=no"),
    Lit("-o"), Lit("ControlMaster=no"),
    Lit("-o"), Lit("LogLevel=error")]

  /** The pointers split_options appends for the options string o. */
  function SplitArgs(o: string): (args: seq<Arg>)
    ensures |args| == AppendedCount(o)
  {
    seq(AppendedCount(o), i requires 0 <= i < AppendedCount(o) => InOptions(TokenStart(o, i)))
  }

  /** The entries contributed by ssh_options, when set. */
  function OptionArgs(cfg: RemoteConfig): (args: seq<Arg>) {
    if cfg.sshOptions.Some? then SplitArgs(cfg.sshOptions.value) else []
  }

  /** ssh_argv in full, up to and including its NULL terminator. */
  function SshArgv(cfg: RemoteConfig): (args: seq<Arg>)
    ensures |args| == |LeadingArgs(cfg)| + |OptionArgs(cfg)| + 11
    ensures args[|args| - 1] == NullArg && args[|args| - 2] == CmdBuffer
  {
    LeadingArgs(cfg) + OptionArgs(cfg) + FIXED_OPTIONS + [Lit(cfg.host), CmdBuffer, NullArg]
  }

  /**
   * The max_options that split_options is given. As written it is the size
   * of ssh_argv itself, although eleven more entries follow the options.
   */
  const SPLIT_LIMIT_AS_WRITTEN: nat := MAX_CMDLINE_OPTIONS
  /** The limit that leaves room for those eleven entries. */
  const SPLIT_LIMIT: nat := MAX_CMDLINE_OPTIONS - 10

  /** Whether split_options, given the limit, accepts the configured options. */
  predicate SplitAccepts(cfg: RemoteConfig, limit: nat) {
    cfg.sshOptions.None? || |LeadingArgs(cfg)| + AppendedCount(cfg.sshOptions.value) < limit
  }

  /** With the corrected limit, every accepted configuration fits in ssh_argv. */
  lemma SshArgvFits(cfg: RemoteConfig)
    requires SplitAccepts(cfg, SPLIT_LIMIT)
    ensures |SshArgv(cfg)| <= MAX_CMDLINE_OPTIONS
  {
  }

  /** n spaces */
  function Spaces(n: nat): (s: string)
    ensures |s| == n && forall i :: 0 <= i < n ==> s[i] == ' '
  {
    seq(n, _ => ' ')
  }

  /** The spaces of a string of n spaces are at 0, 1, ..., n - 1. */
  lemma {:induction false} SpaceIdxOfSpaces(n: nat)
    ensures SpaceIdx(Spaces(n)) == seq(n, i => i)
  {
    if n > 0 {
      assert Spaces(n)[..n - 1] == Spaces(n - 1);
      SpaceIdxOfSpaces(n - 1);
    }
  }

  /**
   * As written, split_options accepts an options string of 244 spaces and
   * an x after just proto (246 entries so far, below 256), and the eleven
   * entries that follow need 257 slots of the 256.
   */
  lemma SshArgvOverflowAsWritten()
    ensures var cfg := RemoteConfig("ssh", "db", None, None, None, Some(Spaces(244) + "x"), None);
            SplitAccepts(cfg, SPLIT_LIMIT_AS_WRITTEN) && |SshArgv(cfg)| > MAX_CMDLINE_OPTIONS
  {
    var o := Spaces(244) + "x";
    assert o[..244] == Spaces(244);
    SpaceIdxStep(o, 244);
    SpaceIdxOfSpaces(244);
    assert o[..245] == o;
    assert |SpaceIdx(o)| == 244;
    assert AppendedCount(o) == 245;
  }

  /** The text a pointer entry stands for: the C string at its offset of the options copy. */
  function ArgText(a: Arg, options: seq<char>, cmd: string): string
    requires a.InOptions? ==> a.offset <= |options|
  {
    match a
      case Lit(text) => text
      case InOptions(offset) => CString(options[offset..])
      case CmdBuffer => cmd
      case NullArg => []
  }

  /** Every options pointer of ssh_argv reads, in the cut copy, as its token. */
  lemma OptionArgsReadBack(o: string, i: nat)
    requires '\0' !in o
    requires i < AppendedCount(o)
    ensures SplitArgs(o)[i].offset <= |o| + 1
    ensures ArgText(SplitArgs(o)[i], NulSpaces(o + "\0", |o|), []) == SplitTokens(o)[i]
  {
    CStringOfTerminated(o, "\0");
    TokenReadBack(o + "\0", i);
  }

  // ---------------------------------------------------------------------
  // Filling ssh_argv
  // ---------------------------------------------------------------------

  /** ssh_argv[ssh_argc++] = a */
  method Push(argv: array<Arg>, argc: nat, a: Arg) returns (next: nat)
    requires argc < argv.Length
    modifies argv
    ensures next == argc + 1
    ensures argv[..next] == old(argv[..argc]) + [a]
  {
    argv[argc] := a;
    next := argc + 1;
  }

  /** The -p, -l and -F pairs when their values are set. */
  method PushPair(argv: array<Arg>, argc: nat, flag: string, value: Option<string>) returns (next: nat)
    requires argc + 2 <= argv.Length
    modifies argv
    ensures next == argc + |FlagPair(flag, value)|
    ensures argv[..next] == old(argv[..argc]) + FlagPair(flag, value)
  {
    next := argc;
    if value.Some? {
      next := Push(argv, next, Lit(flag));
      next := Push(argv, next, Lit(value.value));
    }
  }

  /**
   * The ssh_argv part of launch_agent, with split_options given the limit
   * that leaves room for the entries after the options. On success the
   * count before the NULL terminator is returned.
   */
  method BuildSshArgv(cfg: RemoteConfig) returns (r: Result<nat, SplitError>, argv: array<Arg>, options: array<char>)
    requires cfg.sshOptions.Some? ==> '\0' !in cfg.sshOptions.value
    ensures argv.Length == MAX_CMDLINE_OPTIONS
    ensures r.Err? <==> !SplitAccepts(cfg, SPLIT_LIMIT)
    ensures r.Ok? ==> r.value + 1 == |SshArgv(cfg)| && argv[..r.value + 1] == SshArgv(cfg)
    ensures r.Ok? && cfg.sshOptions.Some? ==>
              options[..] == NulSpaces(cfg.sshOptions.value + "\0", |cfg.sshOptions.value|)
  {
    argv := new Arg[MAX_CMDLINE_OPTIONS](_ => NullArg);
    var argc := Push(argv, 0, Lit(cfg.proto));
    argc := PushPair(argv, argc, "-p", cfg.port);
    argc := PushPair(argv, argc, "-l", cfg.user);
    argc := PushPair(argv, argc, "-F", cfg.sshConfig);
    assert argv[..argc] == LeadingArgs(cfg);
    if cfg.sshOptions.Some? {
      var split;
      split, options := PushOptions(argv, argc, cfg.sshOptions.value);
      if split.Err? {
        return Err(split.error), argv, options;
      }
      argc := split.value;
    } else {
      options := new char[0];
    }
    ghost var before := argv[..argc];
    assert before == LeadingArgs(cfg) + OptionArgs(cfg);
    var count := PushTail(argv, argc, cfg.host);
    return Ok(count - 1), argv, options;
  }

  /**
   * pg_strdup of the options string and split_options on the copy, with the
   * limit that leaves room for the rest of ssh_argv.
   */
  method PushOptions(argv: array<Arg>, argc: nat, o: string) returns (r: Result<nat, SplitError>, options: array<char>)
    requires argc < SPLIT_LIMIT <= argv.Length
    requires '\0' !in o
    modifies argv
    ensures r.Err? <==> argc + AppendedCount(o) >= SPLIT_LIMIT
    ensures r.Ok? ==> r.value == argc + AppendedCount(o)
    ensures r.Ok? ==> argv[..r.value] == old(argv[..argc]) + SplitArgs(o)
    ensures r.Ok? ==> options[..] == NulSpaces(o + "\0", |o|)
  {
    options := new char[|o| + 1](i requires 0 <= i <= |o| => if i < |o| then o[i] else '\0');
    assert options[..] == o + "\0";
    CStringOfTerminated(o, "\0");
    r := SplitOptions(argc, argv, SPLIT_LIMIT, options);
    if r.Ok? {
      forall j | 0 <= j < r.value
        ensures argv[..r.value][j] == (old(argv[..argc]) + SplitArgs(o))[j]
      {
        if j >= argc {
          assert SplitArgs(o)[j - argc] == InOptions(TokenStart(o, j - argc));
        }
      }
    }
  }

  /** The four -o settings, the host, cmd and the NULL terminator. */
  method PushTail(argv: array<Arg>, argc: nat, host: string) returns (next: nat)
    requires argc + 11 <= argv.Length
    modifies argv
    ensures next == argc + 11
    ensures argv[..next] == old(argv[..argc]) + FIXED_OPTIONS + [Lit(host), CmdBuffer, NullArg]
  {
    next := PushFixed(argv, argc);
    ghost var fixed := argv[..next];
    next := Push(argv, next, Lit(host));
    next := Push(argv, next, CmdBuffer);
    next := Push(argv, next, NullArg);
    assert argv[..next] == fixed + [Lit(host), CmdBuffer, NullArg];
  }

  /** The four -o settings. */
  method PushFixed(argv: array<Arg>, argc: nat) returns (next: nat)
    requires argc + 8 <= argv.Length
    modifies argv
    ensures next == argc + 8
    ensures argv[..next] == old(argv[..argc]) + FIXED_OPTIONS
  {
    next := PushPair(argv, argc, "-o", Some("PasswordAuthentication=no"));
    next := PushPair(argv, next, "-o", Some("Compression=no"));
    next := PushPair(argv, next, "-o", Some("ControlMaster=no"));
    next := PushPair(argv, next, "-o", Some("LogLevel=error"));
  }
}
