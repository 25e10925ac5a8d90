/**
 * The checks launch_agent makes on the agent it started
 * (src/utils/remote.c, check_remote_agent_compatibility): the protocol
 * version first, then that the compatibility string the agent sent is
 * NUL-terminated within its buffer, then that it equals the string this
 * program prepares for itself. The local protocol version and the locally
 * prepared string are parameters; prepare_compatibility_str is not part of
 * this model.
 */
module AgentCompat {
  import opened Common
  import opened Versions

  datatype CompatError =
    | VersionMismatch(agentVersionStr: string)
    | Unterminated
    | Incompatible(expected: string, actual: string)

  /** The agent's version as the error message renders it: "%d.%d.%d" of v/10000, (v/100)%100, v%100 in C. */
  function AgentVersionStr(v: int): (s: string)
    ensures ScanDotted(s, 3) == [CDiv(v, 10000), CMod(CDiv(v, 100), 100), CMod(v, 100)]
  {
    var fields := [CDiv(v, 10000), CMod(CDiv(v, 100), 100), CMod(v, 100)];
    ScanDottedOfDotted(fields);
    Dotted(fields)
  }

  /** strnlen: the length of the C string in buf, looking at no more than maxSize cells. */
  function StrNLen(buf: seq<char>, maxSize: nat): (r: nat)
    requires maxSize <= |buf|
    ensures r <= maxSize
    ensures '\0' !in buf[..r]
    ensures r < maxSize ==> buf[r] == '\0'
  {
    if maxSize == 0 || buf[0] == '\0' then 0
    else
      var r := 1 + StrNLen(buf[1..], maxSize - 1);
      assert buf[..r] == [buf[0]] + buf[1..][..r - 1];
      r
  }

  /**
   * check_remote_agent_compatibility: the buffer holds maxSize cells. On
   * success the agent's compatibility string is returned.
   */
  function CheckCompatibility(agentVersion: int, protocolVersion: int, buf: seq<char>, maxSize: nat,
                              prepared: string): (r: Result<string, CompatError>)
    requires maxSize <= |buf|
  {
    if agentVersion != protocolVersion then Err(VersionMismatch(AgentVersionStr(agentVersion)))
    else if StrNLen(buf, maxSize) == maxSize then Err(Unterminated)
    else if CString(buf) != prepared then Err(Incompatible(prepared, CString(buf)))
    else Ok(CString(buf))
  }

  /** A NUL among the first maxSize cells is exactly what strnlen's test accepts. */
  lemma StrNLenTerminated(buf: seq<char>, maxSize: nat)
    requires maxSize <= |buf|
    ensures StrNLen(buf, maxSize) < maxSize <==> '\0' in buf[..maxSize]
    ensures StrNLen(buf, maxSize) < maxSize ==> StrNLen(buf, maxSize) == |CString(buf)|
  {
    var r := StrNLen(buf, maxSize);
    if r < maxSize {
      assert buf[..maxSize][r] == '\0';
      CStringOfTerminated(buf[..r], buf[r..]);
      assert buf == buf[..r] + buf[r..];
    } else {
      assert buf[..maxSize] == buf[..r];
    }
  }

  /**
   * The agent is accepted exactly when its version is the local protocol
   * version, its string is terminated within the buffer and equals the
   * prepared one; each failure is reported in that order.
   */
  lemma CheckCompatibilityCases(agentVersion: int, protocolVersion: int, buf: seq<char>, maxSize: nat,
                                prepared: string)
    requires maxSize <= |buf|
    ensures var r := CheckCompatibility(agentVersion, protocolVersion, buf, maxSize, prepared);
            && (r.Ok? <==> agentVersion == protocolVersion && '\0' in buf[..maxSize] && CString(buf) == prepared)
            && (r.Ok? ==> r.value == prepared)
            && (agentVersion != protocolVersion ==> r.Err? && r.error.VersionMismatch?)
            && (agentVersion == protocolVersion && '\0' !in buf[..maxSize] ==> r == Err(Unterminated))
  {
    StrNLenTerminated(buf, maxSize);
  }

  /** The version the error message shows reads back, with parse_program_version, as the agent's version. */
  lemma AgentVersionStrReadsBack(v: int)
    requires 0 <= v < UINT32_MODULUS
    ensures ParseProgramVersion(Some(AgentVersionStr(v))) == v
  {
    assert [CDiv(v, 10000), CMod(CDiv(v, 100), 100), CMod(v, 100)] == ProgramFields(v);
  }
}
